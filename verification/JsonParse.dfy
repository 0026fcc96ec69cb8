/** What the recursive parser computes, as a function of the text and a position in it. Reading
    at the end of the text gives the terminating zero. */
module JsonParse {
  import opened Bytes
  import opened JsonText

  /** `Fail` is a null result. `Overrun` stands for the undefined behaviour of the original on a
      malformed string: it reads past the terminator or writes past its allocation. */
  datatype Parsed<+T> = Done(value: T, end: nat) | Fail | Overrun

  function At(s: bytes, i: nat): byte { if i < |s| then s[i] else 0 }

  predicate Digit(c: byte) { 48 <= c <= 57 }

  /** Jump over whitespace and control bytes. */
  function Skip(s: bytes, i: nat): (r: nat)
    requires i <= |s|
    ensures i <= r <= |s|
    decreases |s| - i
  {
    if At(s, i) != 0 && At(s, i) <= 32 then Skip(s, i + 1) else i
  }

  // ------------------------------------------------------------ numbers

  /** Value and end of a run of digits, continuing the value `acc`. */
  function Digits(s: bytes, i: nat, acc: nat): (r: (nat, nat))
    requires i <= |s|
    ensures i <= r.1 <= |s|
    decreases |s| - i
  {
    if Digit(At(s, i)) then Digits(s, i + 1, acc * 10 + (s[i] - 48) as nat) else (acc, i)
  }

  function Pow10(k: int): real
    decreases if k < 0 then -k else k
  {
    if k == 0 then 1.0 else if k > 0 then 10.0 * Pow10(k - 1) else Pow10(k + 1) / 10.0
  }

  /** Mantissa and end of the integer part: an optional zero, then digits not starting with one. */
  function Whole(s: bytes, i: nat): (r: (nat, nat))
    requires i <= |s|
    ensures i <= r.1 <= |s|
  {
    var j := if At(s, i) == 48 then i + 1 else i;
    if 49 <= At(s, j) <= 57 then Digits(s, j, 0) else (0, j)
  }

  /** The fraction continues the mantissa; the exponent is lowered by its number of digits. */
  function Fraction(s: bytes, i: nat, n: nat): (r: (nat, nat))
    requires i <= |s|
    ensures i <= r.1 <= |s|
  {
    if At(s, i) == 46 && Digit(At(s, i + 1)) then Digits(s, i + 1, n) else (n, i)
  }

  function Exponent(s: bytes, i: nat): (r: (int, nat))
    requires i <= |s|
    ensures i <= r.1 <= |s|
  {
    if At(s, i) == 101 || At(s, i) == 69 then
      var j := i + 1;
      if At(s, j) == 43 then Digits(s, j + 1, 0)
      else if At(s, j) == 45 then var d := Digits(s, j + 1, 0); (-(d.0 as int), d.1)
      else Digits(s, j, 0)
    else (0, i)
  }

  /** A number never fails to parse; without rounding its value is exact. */
  function ParseNumber(s: bytes, i: nat): (r: (real, nat))
    requires i <= |s|
    ensures i <= r.1 <= |s|
  {
    var neg := At(s, i) == 45;
    var (n, j) := Whole(s, if neg then i + 1 else i);
    var (m, k) := Fraction(s, j, n);
    var scale := if k > j then k - j - 1 else 0;
    var (e, end) := Exponent(s, k);
    ((if neg then -(m as real) else m as real) * Pow10(e - scale), end)
  }

  /** The value of a number from its parts. */
  lemma {:induction false} NumberIs(s: bytes, i: nat, n: nat, j: nat, m: nat, k: nat, e: int, l: nat)
    requires i <= |s| && Whole(s, if At(s, i) == 45 then i + 1 else i) == (n, j)
    requires Fraction(s, j, n) == (m, k) && Exponent(s, k) == (e, l)
    ensures var scale := if k > j then j + 1 - k else 0;
            ParseNumber(s, i).0 == (if At(s, i) == 45 then -(m as real) else m as real) * Pow10(scale + e)
    ensures ParseNumber(s, i).1 == l
  {
    hide Whole, Fraction, Exponent, Pow10;
    var neg := At(s, i) == 45;
    var scale := if k > j then k - j - 1 else 0;
    assert e - scale == (if k > j then j + 1 - k else 0) + e;
    var w := ParseNumber(s, i);
    assert w.1 == l;
    var p := Pow10(e - scale);
    assert w.0 == (if neg then -(m as real) else m as real) * p;
  }

  // ------------------------------------------------------------ strings

  function HexValue(c: byte): Option<nat> {
    if Digit(c) then Some(c - 48)
    else if 65 <= c <= 70 then Some(c - 55)
    else if 97 <= c <= 102 then Some(c - 87)
    else None
  }

  /** parse_hex4: zero as soon as a character is not a hex digit. */
  function Hex4(s: bytes, i: nat): nat {
    match (HexValue(At(s, i)), HexValue(At(s, i + 1)), HexValue(At(s, i + 2)), HexValue(At(s, i + 3)))
    case (Some(a), Some(b), Some(c), Some(d)) => ((a * 16 + b) * 16 + c) * 16 + d
    case _ => 0
  }

  predicate LowSurrogate(u: nat) { 0xDC00 <= u <= 0xDFFF }
  predicate HighSurrogate(u: nat) { 0xD800 <= u <= 0xDBFF }

  function Combine(hi: nat, lo: nat): nat { 0x10000 + (hi % 0x400) * 0x400 + lo % 0x400 }

  lemma {:induction false} CombineRange(hi: nat, lo: nat)
    ensures 0x10000 <= Combine(hi, lo) <= 0x10FFFF
  {
  }

  /** The bytes the parser writes for a code point: continuation bytes take six bits each from the
      bottom, the first byte takes the rest under the mark of the length. */
  function Utf8(u: nat): (b: bytes)
    requires u <= 0x10FFFF
  {
    if u < 0x80 then [u]
    else if u < 0x800 then [0xC0 + u / 64, 0x80 + u % 64]
    else if u < 0x10000 then [0xE0 + u / 4096, 0x80 + u / 64 % 64, 0x80 + u % 64]
    else [0xF0 + u / 262144, 0x80 + u / 4096 % 64, 0x80 + u / 64 % 64, 0x80 + u % 64]
  }

  function ShortEscape(c: byte): byte {
    if c == 98 then 8 else if c == 102 then 12 else if c == 110 then 10
    else if c == 114 then 13 else if c == 116 then 9 else c
  }

  lemma {:induction false} Hex4Bound(s: bytes, i: nat)
    ensures Hex4(s, i) <= 0xFFFF
  {
  }

  /** What the escape at position `i` writes, and where reading goes on. */
  function UnescapeAt(s: bytes, i: nat): (r: (bytes, nat))
    ensures i + 2 <= r.1
    ensures |r.0| <= 4
  {
    if At(s, i + 1) != 117 then ([ShortEscape(At(s, i + 1))], i + 2)
    else
      var u := Hex4(s, i + 2);
      Hex4Bound(s, i + 2);
      if LowSurrogate(u) || u == 0 then ([], i + 6)
      else if HighSurrogate(u) then
        if At(s, i + 6) != BACKSLASH || At(s, i + 7) != 117 then ([], i + 6)
        else
          var lo := Hex4(s, i + 8);
          if LowSurrogate(lo) then (Utf8(Combine(u, lo)), i + 12) else ([], i + 12)
      else (Utf8(u), i + 6)
  }

  /** First pass: how many characters to allocate for, an escape counting as one. */
  function CountChars(s: bytes, i: nat): (r: Parsed<nat>)
    requires i <= |s|
    ensures r.Done? ==> i <= r.end <= |s|
    decreases |s| - i
  {
    if At(s, i) == QUOTE || At(s, i) == 0 then Done(0, i)
    else
      var next := if s[i] == BACKSLASH then i + 2 else i + 1;
      if next > |s| then Overrun
      else match CountChars(s, next)
           case Done(n, end) => Done(n + 1, end)
           case other => other
  }

  lemma {:induction false} CountOne(s: bytes, i: nat, n: nat, end: nat)
    requires i < |s| && s[i] != QUOTE && s[i] != 0 && s[i] != BACKSLASH && CountChars(s, i + 1) == Done(n, end)
    ensures CountChars(s, i) == Done(n + 1, end)
  {
  }

  lemma {:induction false} CountTwo(s: bytes, i: nat, n: nat, end: nat)
    requires i + 1 < |s| && s[i] == BACKSLASH && CountChars(s, i + 2) == Done(n, end)
    ensures CountChars(s, i) == Done(n + 1, end)
  {
  }

  /** Second pass: the unescaped bytes, and the position of the closing quote (or of the end). */
  function ReadChars(s: bytes, i: nat): (r: Parsed<bytes>)
    requires i <= |s|
    ensures r.Done? ==> i <= r.end <= |s|
    decreases |s| - i
  {
    if At(s, i) == QUOTE || At(s, i) == 0 then Done([], i)
    else
      var (out, next) := if s[i] == BACKSLASH then UnescapeAt(s, i) else ([s[i]], i + 1);
      if next > |s| then Overrun
      else match ReadChars(s, next)
           case Done(rest, end) => Done(out + rest, end)
           case other => other
  }

  lemma {:induction false} CountStops(s: bytes, i: nat)
    requires i < |s| && s[i] == QUOTE
    ensures CountChars(s, i) == Done(0, i) && ReadChars(s, i) == Done([], i)
  {
  }

  function ParseString(s: bytes, i: nat): (r: Parsed<bytes>)
    requires i <= |s|
    ensures r.Done? ==> i < r.end <= |s|
  {
    if At(s, i) != QUOTE then Fail
    else match (CountChars(s, i + 1), ReadChars(s, i + 1))
         case (Done(n, _), Done(b, end)) =>
           if |b| <= n then Done(b, if At(s, end) == QUOTE then end + 1 else end) else Overrun
         case _ => Overrun
  }

  // ------------------------------------------------------------ values

  function ParseValue(s: bytes, i: nat): (r: Parsed<Json>)
    requires i <= |s|
    ensures r.Done? ==> i < r.end <= |s|
    decreases |s| - i, 0
  {
    var c := At(s, i);
    if HasAt(s, i, NULL_TEXT) then Done(Null, i + 4)
    else if HasAt(s, i, FALSE_TEXT) then Done(False, i + 5)
    else if HasAt(s, i, TRUE_TEXT) then Done(True, i + 4)
    else if c == QUOTE then
      match ParseString(s, i)
      case Done(t, end) => Done(String(t), end)
      case Fail => Fail
      case Overrun => Overrun
    else if c == 45 || Digit(c) then
      var (x, end) := ParseNumber(s, i);
      NumberMoves(s, i);
      Done(Number(x), end)
    else if c == 91 then
      var j := Skip(s, i + 1);
      if At(s, j) == 93 then Done(Array(NoItem), j + 1)
      else match ParseItems(s, j)
           case Done(items, end) => Done(Array(items), end)
           case Fail => Fail
           case Overrun => Overrun
    else if c == 123 then
      var j := Skip(s, i + 1);
      if At(s, j) == 125 then Done(Object(NoMember), j + 1)
      else match ParseMembers(s, j)
           case Done(ms, end) => Done(Object(ms), end)
           case Fail => Fail
           case Overrun => Overrun
    else Fail
  }

  lemma {:induction false} NumberMoves(s: bytes, i: nat)
    requires i <= |s| && (At(s, i) == 45 || Digit(At(s, i)))
    ensures ParseNumber(s, i).1 > i
  {
    if 49 <= At(s, i) <= 57 {
      assert Digits(s, i, 0) == Digits(s, i + 1, (s[i] - 48) as nat);
    }
  }

  /** The elements of an array up to its closing bracket. */
  function ParseItems(s: bytes, i: nat): (r: Parsed<Items>)
    requires i <= |s|
    ensures r.Done? ==> i < r.end <= |s|
    decreases |s| - i, 1
  {
    match ParseValue(s, Skip(s, i))
    case Fail => Fail
    case Overrun => Overrun
    case Done(v, end) =>
      var j := Skip(s, end);
      if At(s, j) == COMMA then
        match ParseItems(s, j + 1)
        case Fail => Fail
        case Overrun => Overrun
        case Done(tail, k) => Done(Item(v, tail), k)
      else if At(s, j) == 93 then Done(Item(v, NoItem), j + 1)
      else Fail
  }

  /** The name of a member and the position behind its colon. */
  function ParseName(s: bytes, i: nat): (r: Parsed<bytes>)
    requires i <= |s|
    ensures r.Done? ==> i < r.end <= |s|
  {
    match ParseString(s, Skip(s, i))
    case Fail => Fail
    case Overrun => Overrun
    case Done(name, end) =>
      var j := Skip(s, end);
      if At(s, j) == COLON then Done(name, j + 1) else Fail
  }

  /** The members of an object up to its closing brace. */
  function ParseMembers(s: bytes, i: nat): (r: Parsed<Members>)
    requires i <= |s|
    ensures r.Done? ==> i < r.end <= |s|
    decreases |s| - i, 1
  {
    match ParseName(s, i)
    case Fail => Fail
    case Overrun => Overrun
    case Done(name, k) =>
      match ParseValue(s, Skip(s, k))
      case Fail => Fail
      case Overrun => Overrun
      case Done(v, end) =>
        var j := Skip(s, end);
        if At(s, j) == COMMA then
          match ParseMembers(s, j + 1)
          case Fail => Fail
          case Overrun => Overrun
          case Done(rest, m) => Done(Member(name, v, rest), m)
        else if At(s, j) == 125 then Done(Member(name, v, NoMember), j + 1)
        else Fail
  }

  /** cJSON_ParseWithOpts; `strict` requires that only whitespace follows. */
  function ParseText(s: bytes, strict: bool): (r: Parsed<Json>) {
    match ParseValue(s, Skip(s, 0))
    case Fail => Fail
    case Overrun => Overrun
    case Done(v, end) =>
      if !strict then Done(v, end)
      else if At(s, Skip(s, end)) != 0 then Fail
      else Done(v, Skip(s, end))
  }
}
