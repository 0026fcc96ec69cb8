/** The texts the parser accepts, which are more than the JSON texts, and that it accepts no others.
    Positions are those of bytes in the text, and a text is read as ending at its first zero byte. */
module JsonLanguage {
  import opened Bytes
  import opened JsonText
  import opened JsonParse
  import opened JsonOverrun

  /** Bytes 1 to 32 are blanks. */
  predicate Blanks(s: bytes, i: nat, j: nat) { i <= j <= |s| && forall k :: i <= k < j ==> 1 <= s[k] <= 32 }

  // ------------------------------------------------------------ numbers

  predicate IsDigit(c: byte) { 48 <= c <= 57 }

  /** The digits from `i` to `j`, and no digit behind them. */
  predicate Run(s: bytes, i: nat, j: nat) {
    i <= j <= |s| && (forall k :: i <= k < j ==> IsDigit(s[k])) && !IsDigit(At(s, j))
  }

  /** The number that a row of digits stands for. */
  function Tens(t: bytes): int {
    if t == [] then 0 else Tens(t[..|t| - 1]) * 10 + (t[|t| - 1] as int - 48)
  }

  /** Where the parts of a number end: sign, one zero, digits that do not start with zero, a point with
      digits behind it, an exponent with its sign, its digits. All but the first byte may be missing. */
  datatype Span = Span(sign: nat, zero: nat, whole: nat, frac: nat, mark: nat, exp: nat)

  predicate SpanOk(s: bytes, i: nat, p: Span) {
    && (At(s, i) == 45 || IsDigit(At(s, i)))
    && p.sign == (if At(s, i) == 45 then i + 1 else i)
    && p.zero == (if At(s, p.sign) == 48 then p.sign + 1 else p.sign)
    && (if 49 <= At(s, p.zero) <= 57 then Run(s, p.zero, p.whole) else p.whole == p.zero)
    && (if At(s, p.whole) == 46 && IsDigit(At(s, p.whole + 1)) then Run(s, p.whole + 1, p.frac) else p.frac == p.whole)
    && (if At(s, p.frac) == 101 || At(s, p.frac) == 69 then
          && p.mark == (if At(s, p.frac + 1) == 43 || At(s, p.frac + 1) == 45 then p.frac + 2 else p.frac + 1)
          && Run(s, p.mark, p.exp)
        else p.mark == p.exp == p.frac)
  }

  function Sliced(s: bytes, i: nat, j: nat): bytes { if i <= j <= |s| then s[i..j] else [] }

  function Scaled(neg: bool, digits: int, power: int): real {
    (if neg then -(digits as real) else digits as real) * Pow10(power)
  }

  function SpanValue(s: bytes, i: nat, p: Span): real {
    var digits, places := Sliced(s, p.zero, p.whole) + Sliced(s, p.whole + 1, p.frac), |Sliced(s, p.whole + 1, p.frac)|;
    var power := if At(s, p.frac + 1) == 45 then -Tens(Sliced(s, p.mark, p.exp)) else Tens(Sliced(s, p.mark, p.exp));
    Scaled(At(s, i) == 45, Tens(digits), (if p.mark > p.frac then power else 0) - places)
  }

  ghost predicate NumberAt(s: bytes, i: nat, e: nat, x: real) {
    exists p: Span :: SpanOk(s, i, p) && e == p.exp && x == SpanValue(s, i, p)
  }

  /** Powers of ten. */
  lemma {:induction false} Pow10Steps(k: int)
    ensures Pow10(0) == 1.0 && Pow10(k + 1) == 10.0 * Pow10(k)
  {
  }

  lemma {:induction false} TensSnoc(t: bytes, c: byte)
    ensures Tens(t + [c]) == Tens(t) * 10 + (c as int - 48)
  {
    assert (t + [c])[..|t|] == t;
  }

  lemma {:induction false} RunFirst(s: bytes, i: nat, j: nat)
    requires i < |s| && IsDigit(s[i]) && Run(s, i + 1, j)
    ensures Run(s, i, j)
  {
  }

  lemma {:induction false} RunEmpty(s: bytes, i: nat)
    requires i <= |s| && !IsDigit(At(s, i))
    ensures Run(s, i, i)
  {
  }

  lemma {:induction false} DigitsStep(s: bytes, i: nat, acc: nat)
    requires i <= |s|
    ensures if IsDigit(At(s, i)) then i < |s| && s[i] == At(s, i) && Digits(s, i, acc) == Digits(s, i + 1, acc * 10 + (s[i] - 48) as nat)
            else Digits(s, i, acc) == (acc, i)
  {
  }

  lemma {:induction false} DigitsTens(s: bytes, i: nat, before: bytes)
    requires i <= |s| && Tens(before) >= 0
    ensures var (n, j) := Digits(s, i, Tens(before)); Run(s, i, j) && n == Tens(before + s[i..j])
    decreases |s| - i
  {
    hide Digits, Tens, Run, At;
    DigitsStep(s, i, Tens(before));
    var j := Digits(s, i, Tens(before)).1;
    if IsDigit(At(s, i)) {
      var next := before + [s[i]];
      TensSnoc(before, s[i]);
      DigitsTens(s, i + 1, next);
      RunFirst(s, i, j);
      assert next + s[i + 1..j] == before + s[i..j];
    } else {
      RunEmpty(s, i);
      assert before + s[i..j] == before;
    }
  }

  lemma {:induction false} RunUnique(s: bytes, i: nat, j: nat, k: nat)
    requires Run(s, i, j) && Run(s, i, k)
    ensures j == k
  {
  }

  lemma {:induction false} SpanUnique(s: bytes, i: nat, p: Span, q: Span)
    requires SpanOk(s, i, p) && SpanOk(s, i, q)
    ensures p == q
  {
    hide Run;
    if 49 <= At(s, p.zero) <= 57 { RunUnique(s, p.zero, p.whole, q.whole); }
    if At(s, p.whole) == 46 && IsDigit(At(s, p.whole + 1)) { RunUnique(s, p.whole + 1, p.frac, q.frac); }
    if At(s, p.frac) == 101 || At(s, p.frac) == 69 { RunUnique(s, p.mark, p.exp, q.exp); }
  }

  lemma {:induction false} WholeSpan(s: bytes, w: nat)
    requires w <= |s|
    ensures var z, (n, j) := if At(s, w) == 48 then w + 1 else w, Whole(s, w);
            && z <= |s| && (if 49 <= At(s, z) <= 57 then Run(s, z, j) else j == z)
            && n == Tens(Sliced(s, z, j))
  {
    var z := if At(s, w) == 48 then w + 1 else w;
    if 49 <= At(s, z) <= 57 {
      DigitsTens(s, z, []);
      assert [] + s[z..Digits(s, z, 0).1] == s[z..Digits(s, z, 0).1];
    }
  }

  lemma {:induction false} FractionSpan(s: bytes, j: nat, before: bytes)
    requires j <= |s| && Tens(before) >= 0
    ensures var (m, k) := Fraction(s, j, Tens(before));
            && (if At(s, j) == 46 && IsDigit(At(s, j + 1)) then Run(s, j + 1, k) else k == j)
            && m == Tens(before + Sliced(s, j + 1, k))
            && |Sliced(s, j + 1, k)| == if k > j then k - j - 1 else 0
  {
    if At(s, j) == 46 && IsDigit(At(s, j + 1)) {
      DigitsTens(s, j + 1, before);
    } else {
      assert before + [] == before;
    }
  }

  lemma {:induction false} ExponentSpan(s: bytes, k: nat)
    requires k <= |s|
    ensures var (x, e) := Exponent(s, k);
            if At(s, k) == 101 || At(s, k) == 69 then
              var g := if At(s, k + 1) == 43 || At(s, k + 1) == 45 then k + 2 else k + 1;
              && Run(s, g, e)
              && x == if At(s, k + 1) == 45 then -Tens(Sliced(s, g, e)) else Tens(Sliced(s, g, e))
            else e == k && x == 0
  {
    if At(s, k) == 101 || At(s, k) == 69 {
      var g := if At(s, k + 1) == 43 || At(s, k + 1) == 45 then k + 2 else k + 1;
      DigitsTens(s, g, []);
      assert [] + s[g..Digits(s, g, 0).1] == s[g..Digits(s, g, 0).1];
    }
  }

  lemma {:induction false} NumberScaled(s: bytes, i: nat, n: nat, j: nat, m: nat, k: nat, e: int, l: nat, power: int)
    requires i <= |s| && Whole(s, if At(s, i) == 45 then i + 1 else i) == (n, j)
    requires Fraction(s, j, n) == (m, k) && Exponent(s, k) == (e, l)
    requires power == e - if k > j then k - j - 1 else 0
    ensures ParseNumber(s, i) == (Scaled(At(s, i) == 45, m, power), l)
  {
    hide Whole, Fraction, Exponent, Pow10, ParseNumber;
    NumberIs(s, i, n, j, m, k, e, l);
    var scale := if k > j then j + 1 - k else 0;
    assert scale + e == power;
    assert Pow10(scale + e) == Pow10(power);
    assert ParseNumber(s, i).0 == Scaled(At(s, i) == 45, m, scale + e);
  }

  /** The span of the number the parser reads. */
  lemma {:induction false} SpanRead(s: bytes, i: nat) returns (p: Span)
    requires i <= |s| && (At(s, i) == 45 || IsDigit(At(s, i)))
    ensures SpanOk(s, i, p) && ParseNumber(s, i) == (SpanValue(s, i, p), p.exp)
  {
    hide Whole, Fraction, Exponent, Run, Tens, Pow10, ParseNumber, Scaled, Sliced;
    var w := if At(s, i) == 45 then i + 1 else i;
    var z := if At(s, w) == 48 then w + 1 else w;
    var (n, j) := Whole(s, w);
    WholeSpan(s, w);
    var (m, k) := Fraction(s, j, n);
    FractionSpan(s, j, Sliced(s, z, j));
    var (x, e) := Exponent(s, k);
    ExponentSpan(s, k);
    var g := if !(At(s, k) == 101 || At(s, k) == 69) then k
             else if At(s, k + 1) == 43 || At(s, k + 1) == 45 then k + 2 else k + 1;
    p := Span(w, z, j, k, g, e);
    NumberScaled(s, i, n, j, m, k, x, e, x - |Sliced(s, j + 1, k)|);
  }

  lemma {:induction false} NumberExact(s: bytes, i: nat, e: nat, x: real)
    requires i <= |s| && (At(s, i) == 45 || IsDigit(At(s, i)))
    ensures NumberAt(s, i, e, x) <==> ParseNumber(s, i) == (x, e)
  {
    hide SpanOk, SpanValue, ParseNumber;
    var p := SpanRead(s, i);
    if NumberAt(s, i, e, x) {
      var q: Span :| SpanOk(s, i, q) && e == q.exp && x == SpanValue(s, i, q);
      SpanUnique(s, i, p, q);
    }
  }

  // ------------------------------------------------------------ strings

  predicate HexIs(c: byte, d: nat) {
    (d < 10 && c as int == 48 + d) || (10 <= d < 16 && (c as int == 55 + d || c as int == 87 + d))
  }

  predicate QuadIs(s: bytes, i: nat, a: nat, b: nat, c: nat, d: nat) {
    HexIs(At(s, i), a) && HexIs(At(s, i + 1), b) && HexIs(At(s, i + 2), c) && HexIs(At(s, i + 3), d)
  }

  /** The code unit that four hex digits at `i` stand for, zero if there are no four hex digits. */
  ghost predicate CodeUnit(s: bytes, i: nat, u: nat) {
    || (exists a: nat, b: nat, c: nat, d: nat :: QuadIs(s, i, a, b, c, d) && u == 4096 * a + 256 * b + 16 * c + d)
    || (u == 0 && forall a: nat, b: nat, c: nat, d: nat :: !QuadIs(s, i, a, b, c, d))
  }

  /** What the letter behind a backslash stands for: \b, \f, \n, \r, \t, and itself otherwise. */
  function Letter(c: byte): byte {
    match c
    case 98 => 8
    case 102 => 12
    case 110 => 10
    case 114 => 13
    case 116 => 9
    case _ => c
  }

  predicate Half(u: nat, base: nat) { base <= u < base + 0x400 }

  /** The \u at `i` reaches to `k` and stands for `out`. Behind a high surrogate a second \u is taken as
      its low half, and both stand for nothing if it is none. Zero and other surrogates stand for nothing. */
  ghost predicate UnicodeAt(s: bytes, i: nat, k: nat, out: bytes) {
    exists u: nat, lo: nat :: CodeUnit(s, i + 2, u) && CodeUnit(s, i + 8, lo) && UnitsMean(s, i, u, lo, k, out)
  }

  predicate UnitsMean(s: bytes, i: nat, u: nat, lo: nat, k: nat, out: bytes) {
    if !Half(u, 0xD800) then
      k == i + 6 && out == if u == 0 || Half(u, 0xDC00) || u > 0xFFFF then [] else Utf8(u)
    else if At(s, i + 6) != 92 || At(s, i + 7) != 117 then
      k == i + 6 && out == []
    else
      k == i + 12 && out == if Half(lo, 0xDC00) then Utf8(0x10000 + (u - 0xD800) * 0x400 + (lo - 0xDC00)) else []
  }

  /** The character from `i` to `k` of a literal stands for `out`. */
  ghost predicate CharAt(s: bytes, i: nat, k: nat, out: bytes) {
    if At(s, i) == 92 then
      if At(s, i + 1) == 117 then UnicodeAt(s, i, k, out) else k == i + 2 && out == [Letter(At(s, i + 1))]
    else i < |s| && s[i] != 34 && s[i] != 0 && k == i + 1 && out == [s[i]]
  }

  ghost predicate CharsAt(s: bytes, i: nat, j: nat, t: bytes)
    decreases j - i
  {
    if i >= j then i == j && t == []
    else exists k: nat, out: bytes :: i < k <= j && CharAt(s, i, k, out) && out <= t && CharsAt(s, k, j, t[|out|..])
  }

  /** A literal ends at its quote or with the text. */
  ghost predicate StringAt(s: bytes, i: nat, e: nat, t: bytes) {
    At(s, i) == 34 && exists j: nat :: CharsAt(s, i + 1, j, t) && ClosedAt(s, j, e)
  }

  predicate ClosedAt(s: bytes, j: nat, e: nat) {
    j <= |s| && if At(s, j) == 34 then e == j + 1 else At(s, j) == 0 && e == j
  }

  lemma {:induction false} HexExact(c: byte, d: nat)
    ensures HexIs(c, d) <==> HexValue(c) == Some(d)
  {
  }

  lemma {:induction false} CodeUnitExact(s: bytes, i: nat, u: nat)
    ensures CodeUnit(s, i, u) <==> u == Hex4(s, i)
  {
    forall a: nat, b: nat, c: nat, d: nat
      ensures QuadIs(s, i, a, b, c, d) <==>
              HexValue(At(s, i)) == Some(a) && HexValue(At(s, i + 1)) == Some(b) &&
              HexValue(At(s, i + 2)) == Some(c) && HexValue(At(s, i + 3)) == Some(d)
    {
      HexExact(At(s, i), a);
      HexExact(At(s, i + 1), b);
      HexExact(At(s, i + 2), c);
      HexExact(At(s, i + 3), d);
    }
    hide HexIs, HexValue, QuadIs;
    match (HexValue(At(s, i)), HexValue(At(s, i + 1)), HexValue(At(s, i + 2)), HexValue(At(s, i + 3)))
    case (Some(a), Some(b), Some(c), Some(d)) => assert QuadIs(s, i, a, b, c, d);
    case _ =>
  }

  lemma {:induction false} CombineIs(u: nat, lo: nat)
    requires Half(u, 0xD800) && Half(lo, 0xDC00)
    ensures Combine(u, lo) == 0x10000 + (u - 0xD800) * 0x400 + (lo - 0xDC00)
  {
  }

  lemma {:induction false} UnicodeExact(s: bytes, i: nat, k: nat, out: bytes)
    requires At(s, i + 1) == 117
    ensures UnicodeAt(s, i, k, out) <==> UnescapeAt(s, i) == (out, k)
  {
    hide CodeUnit, Hex4, Utf8, Combine, UnitsMean;
    var p, q := i + 2, i + 8;
    var u, lo := Hex4(s, p), Hex4(s, q);
    CodeUnitExact(s, p, u);
    CodeUnitExact(s, q, lo);
    UnitsExact(s, i, k, out);
    if UnicodeAt(s, i, k, out) {
      var x: nat, y: nat :| CodeUnit(s, i + 2, x) && CodeUnit(s, i + 8, y) && UnitsMean(s, i, x, y, k, out);
      CodeUnitExact(s, p, x);
      CodeUnitExact(s, q, y);
    }
  }

  lemma {:induction false} UnitsExact(s: bytes, i: nat, k: nat, out: bytes)
    requires At(s, i + 1) == 117
    ensures UnitsMean(s, i, Hex4(s, i + 2), Hex4(s, i + 8), k, out) <==> UnescapeAt(s, i) == (out, k)
  {
    hide Hex4, Utf8, Combine;
    var u, lo := Hex4(s, i + 2), Hex4(s, i + 8);
    Hex4Bound(s, i + 2);
    if Half(u, 0xD800) && Half(lo, 0xDC00) { CombineIs(u, lo); }
  }

  lemma {:induction false} LetterIs(c: byte)
    ensures ShortEscape(c) == Letter(c)
  {
  }

  lemma {:induction false} CharExact(s: bytes, i: nat, k: nat, out: bytes)
    requires i < |s| && s[i] != 34 && s[i] != 0
    ensures CharAt(s, i, k, out) <==> (out, k) == NextChar(s, i)
  {
    hide UnicodeAt;
    if s[i] == 92 {
      if At(s, i + 1) == 117 { UnicodeExact(s, i, k, out); } else { LetterIs(At(s, i + 1)); }
    }
  }

  /** One character of the second pass. */
  function NextChar(s: bytes, i: nat): (bytes, nat)
    requires i < |s|
  {
    if s[i] == 92 then UnescapeAt(s, i) else ([s[i]], i + 1)
  }

  lemma {:induction false} ReadStep(s: bytes, i: nat)
    requires i <= |s|
    ensures if At(s, i) == 34 || At(s, i) == 0 then ReadChars(s, i) == Done([], i)
            else
              && i < |s| && s[i] == At(s, i)
              && var (out, next) := NextChar(s, i);
              && i < next
              && (ReadChars(s, i).Done? ==> next <= |s| && ReadChars(s, next).Done?)
              && (next <= |s| && ReadChars(s, next).Done? ==>
                    ReadChars(s, i) == Done(out + ReadChars(s, next).value, ReadChars(s, next).end))
  {
    hide UnescapeAt;
  }

  lemma {:induction false} CharsStep(s: bytes, i: nat, k: nat, j: nat, out: bytes, rest: bytes)
    requires i < k <= j && CharAt(s, i, k, out) && CharsAt(s, k, j, rest)
    ensures CharsAt(s, i, j, out + rest)
  {
    hide CharAt;
    assert (out + rest)[|out|..] == rest;
  }

  lemma {:induction false} CharsParts(s: bytes, i: nat, j: nat, t: bytes) returns (k: nat, out: bytes, rest: bytes)
    requires i < j && CharsAt(s, i, j, t)
    ensures i < k <= j && CharAt(s, i, k, out) && CharsAt(s, k, j, rest) && t == out + rest
  {
    hide CharAt;
    k, out :| i < k <= j && CharAt(s, i, k, out) && out <= t && CharsAt(s, k, j, t[|out|..]);
    rest := t[|out|..];
  }

  lemma {:induction false} NoChars(s: bytes, i: nat, j: nat, t: bytes)
    requires i >= j
    ensures CharsAt(s, i, j, t) <==> i == j && t == []
  {
  }

  /** What the second pass reads is a row of characters. */
  lemma {:induction false} CharsRead(s: bytes, i: nat)
    requires i <= |s| && ReadChars(s, i).Done?
    ensures var r := ReadChars(s, i); CharsAt(s, i, r.end, r.value) && (At(s, r.end) == 34 || At(s, r.end) == 0)
    decreases |s| - i
  {
    hide ReadChars, NextChar, CharAt, CharsAt, At;
    ReadStep(s, i);
    if At(s, i) == 34 || At(s, i) == 0 {
      NoChars(s, i, i, []);
    } else {
      var (out, next) := NextChar(s, i);
      CharsRead(s, next);
      CharExact(s, i, next, out);
      CharsStep(s, i, next, ReadChars(s, next).end, out, ReadChars(s, next).value);
    }
  }

  /** And a row of characters that ends like a literal is what it reads. */
  lemma {:induction false} CharsTaken(s: bytes, i: nat, j: nat, t: bytes)
    requires i <= |s| && j <= |s| && CharsAt(s, i, j, t) && (At(s, j) == 34 || At(s, j) == 0)
    ensures ReadChars(s, i) == Done(t, j)
    decreases j - i
  {
    hide ReadChars, NextChar, CharAt, CharsAt, At;
    ReadStep(s, i);
    if i < j {
      var k, out, rest := CharsParts(s, i, j, t);
      CharFirst(s, i, k, out);
      CharExact(s, i, k, out);
      CharsTaken(s, k, j, rest);
    } else {
      NoChars(s, i, j, t);
    }
  }

  lemma {:induction false} CharFirst(s: bytes, i: nat, k: nat, out: bytes)
    requires CharAt(s, i, k, out)
    ensures i < |s| && s[i] == At(s, i) && s[i] != 34 && s[i] != 0
  {
    hide UnicodeAt;
  }

  lemma {:induction false} StringRead(s: bytes, i: nat)
    requires i <= |s| && ParseString(s, i).Done?
    ensures var r := ParseString(s, i); StringAt(s, i, r.end, r.value)
  {
    hide ReadChars, CountChars, CharsAt;
    CharsRead(s, i + 1);
    var r := ReadChars(s, i + 1);
    assert ClosedAt(s, r.end, ParseString(s, i).end);
  }

  lemma {:induction false} StringTaken(s: bytes, i: nat, e: nat, t: bytes)
    requires i <= |s| && StringAt(s, i, e, t)
    ensures ParseString(s, i) == Done(t, e) || ParseString(s, i).Overrun?
  {
    hide ReadChars, CountChars, CharsAt;
    var j: nat :| CharsAt(s, i + 1, j, t) && ClosedAt(s, j, e);
    CharsTaken(s, i + 1, j, t);
  }

  // ------------------------------------------------------------ values

  predicate WordAt(s: bytes, i: nat, e: nat, word: bytes) { e == i + |word| && e <= |s| && s[i..e] == word }

  /** Brackets around nothing but blanks. */
  predicate EmptyAt(s: bytes, i: nat, e: nat, open: byte, close: byte) {
    At(s, i) == open && i + 1 < e && Blanks(s, i + 1, e - 1) && At(s, e - 1) == close
  }

  /** The value `v` is written from `i` to `e`. */
  ghost predicate ValueAt(s: bytes, i: nat, e: nat, v: Json)
    decreases v
  {
    match v
    case Null => WordAt(s, i, e, [110, 117, 108, 108])
    case False => WordAt(s, i, e, [102, 97, 108, 115, 101])
    case True => WordAt(s, i, e, [116, 114, 117, 101])
    case Number(x) => i < |s| && NumberAt(s, i, e, x)
    case String(t) => i < |s| && StringAt(s, i, e, t)
    case Array(NoItem) => EmptyAt(s, i, e, 91, 93)
    case Array(items) => At(s, i) == 91 && ItemsAt(s, i + 1, e, items)
    case Object(NoMember) => EmptyAt(s, i, e, 123, 125)
    case Object(ms) => At(s, i) == 123 && MembersAt(s, i + 1, e, ms)
  }

  /** Elements with blanks around them and commas between them, up to the closing bracket. */
  ghost predicate ItemsAt(s: bytes, i: nat, e: nat, items: Items)
    requires items.Item?
    decreases items
  {
    exists a: nat, b: nat, c: nat ::
      && Blanks(s, i, a) && ValueAt(s, a, b, items.head) && Blanks(s, b, c)
      && if items.tail.NoItem? then At(s, c) == 93 && e == c + 1 else At(s, c) == 44 && ItemsAt(s, c + 1, e, items.tail)
  }

  /** A name and a colon, with blanks around the name. */
  ghost predicate NameAt(s: bytes, i: nat, e: nat, name: bytes) {
    exists a: nat, b: nat, c: nat :: NameFrom(s, i, e, name, a, b, c)
  }

  ghost predicate NameFrom(s: bytes, i: nat, e: nat, name: bytes, a: nat, b: nat, c: nat) {
    Blanks(s, i, a) && a < |s| && StringAt(s, a, b, name) && Blanks(s, b, c) && At(s, c) == 58 && e == c + 1
  }

  /** Members with blanks around their names and values and commas between them, up to the closing brace. */
  ghost predicate MembersAt(s: bytes, i: nat, e: nat, ms: Members)
    requires ms.Member?
    decreases ms
  {
    exists n: nat, a: nat, b: nat, c: nat ::
      && NameAt(s, i, n, ms.name) && Blanks(s, n, a) && ValueAt(s, a, b, ms.value) && Blanks(s, b, c)
      && if ms.rest.NoMember? then At(s, c) == 125 && e == c + 1 else At(s, c) == 44 && MembersAt(s, c + 1, e, ms.rest)
  }

  /** Where the first element lies, and the comma or bracket behind it. */
  lemma {:induction false} ItemsParts(s: bytes, i: nat, e: nat, items: Items) returns (a: nat, b: nat, c: nat)
    requires items.Item? && ItemsAt(s, i, e, items)
    ensures Blanks(s, i, a) && ValueAt(s, a, b, items.head) && Blanks(s, b, c)
    ensures if items.tail.NoItem? then At(s, c) == 93 && e == c + 1 else At(s, c) == 44 && ItemsAt(s, c + 1, e, items.tail)
  {
    hide ValueAt, Blanks;
    a, b, c :|
      && Blanks(s, i, a) && ValueAt(s, a, b, items.head) && Blanks(s, b, c)
      && if items.tail.NoItem? then At(s, c) == 93 && e == c + 1 else At(s, c) == 44 && ItemsAt(s, c + 1, e, items.tail);
  }

  lemma {:induction false} MembersParts(s: bytes, i: nat, e: nat, ms: Members) returns (n: nat, a: nat, b: nat, c: nat)
    requires ms.Member? && MembersAt(s, i, e, ms)
    ensures NameAt(s, i, n, ms.name) && Blanks(s, n, a) && ValueAt(s, a, b, ms.value) && Blanks(s, b, c)
    ensures if ms.rest.NoMember? then At(s, c) == 125 && e == c + 1 else At(s, c) == 44 && MembersAt(s, c + 1, e, ms.rest)
  {
    hide ValueAt, NameAt, Blanks;
    n, a, b, c :|
      && NameAt(s, i, n, ms.name) && Blanks(s, n, a) && ValueAt(s, a, b, ms.value) && Blanks(s, b, c)
      && if ms.rest.NoMember? then At(s, c) == 125 && e == c + 1 else At(s, c) == 44 && MembersAt(s, c + 1, e, ms.rest);
  }

  lemma {:induction false} SkipBlanks(s: bytes, i: nat)
    requires i <= |s|
    ensures Blanks(s, i, Skip(s, i)) && !(1 <= At(s, Skip(s, i)) <= 32)
    decreases |s| - i
  {
    if At(s, i) != 0 && At(s, i) <= 32 { SkipBlanks(s, i + 1); }
  }

  lemma {:induction false} SkipIs(s: bytes, i: nat, j: nat)
    requires i <= |s| && Blanks(s, i, j) && !(1 <= At(s, j) <= 32)
    ensures Skip(s, i) == j
    decreases j - i
  {
    if i < j { SkipIs(s, i + 1, j); }
  }

  /** A value begins with a byte that is no blank and no closing bracket, and which tells its kind. */
  lemma {:induction false} ValueFirst(s: bytes, i: nat, e: nat, v: Json)
    requires ValueAt(s, i, e, v)
    ensures i < |s| && At(s, i) > 32 && At(s, i) != 93 && At(s, i) != 125
    ensures v.Null? ==> At(s, i) == 110
    ensures v.False? ==> At(s, i) == 102
    ensures v.True? ==> At(s, i) == 116
    ensures v.Number? <==> At(s, i) == 45 || IsDigit(At(s, i))
    ensures v.String? <==> At(s, i) == 34
    ensures v.Array? <==> At(s, i) == 91
    ensures v.Object? <==> At(s, i) == 123
  {
    hide ItemsAt, MembersAt, CharsAt, SpanValue, Blanks;
    if v.Null? || v.False? || v.True? { assert s[i] == s[i..e][0]; }
  }

  lemma {:induction false} BlanksJoin(s: bytes, i: nat, j: nat, k: nat)
    requires Blanks(s, i, j) && Blanks(s, j, k)
    ensures Blanks(s, i, k)
  {
  }

  lemma {:induction false} NoBlanks(s: bytes, i: nat)
    requires i <= |s|
    ensures Blanks(s, i, i)
  {
  }

  /** Leading blanks may be left out or put in. */
  lemma {:induction false} ItemsShift(s: bytes, i: nat, e: nat, items: Items)
    requires i <= |s| && items.Item?
    ensures ItemsAt(s, Skip(s, i), e, items) <==> ItemsAt(s, i, e, items)
    ensures ItemsAt(s, i, e, items) ==> At(s, Skip(s, i)) != 93
  {
    hide ValueAt, Blanks, Skip;
    var j := Skip(s, i);
    SkipBlanks(s, i);
    if ItemsAt(s, j, e, items) {
      var a, b, c := ItemsParts(s, j, e, items);
      BlanksJoin(s, i, j, a);
    }
    if ItemsAt(s, i, e, items) {
      var a, b, c := ItemsParts(s, i, e, items);
      ValueFirst(s, a, b, items.head);
      SkipIs(s, i, a);
      NoBlanks(s, a);
    }
  }

  lemma {:induction false} NameShift(s: bytes, i: nat, n: nat, name: bytes)
    requires i <= |s|
    ensures NameAt(s, Skip(s, i), n, name) <==> NameAt(s, i, n, name)
    ensures NameAt(s, i, n, name) ==> At(s, Skip(s, i)) == 34
  {
    hide StringAt, Blanks, Skip;
    var j := Skip(s, i);
    SkipBlanks(s, i);
    if NameAt(s, j, n, name) {
      var a: nat, b: nat, c: nat :| NameFrom(s, j, n, name, a, b, c);
      BlanksJoin(s, i, j, a);
      assert NameFrom(s, i, n, name, a, b, c);
    }
    if NameAt(s, i, n, name) {
      var a: nat, b: nat, c: nat :| NameFrom(s, i, n, name, a, b, c);
      StringFirst(s, a, b, name);
      SkipIs(s, i, a);
      NoBlanks(s, a);
      assert NameFrom(s, a, n, name, a, b, c);
    }
  }

  lemma {:induction false} StringFirst(s: bytes, i: nat, e: nat, t: bytes)
    requires StringAt(s, i, e, t)
    ensures At(s, i) == 34 && i < e
  {
    hide CharAt;
    var j: nat :| CharsAt(s, i + 1, j, t) && ClosedAt(s, j, e);
  }

  lemma {:induction false} MembersShift(s: bytes, i: nat, e: nat, ms: Members)
    requires i <= |s| && ms.Member?
    ensures MembersAt(s, Skip(s, i), e, ms) <==> MembersAt(s, i, e, ms)
    ensures MembersAt(s, i, e, ms) ==> At(s, Skip(s, i)) != 125
  {
    hide ValueAt, Blanks, Skip, NameAt;
    var j := Skip(s, i);
    if MembersAt(s, j, e, ms) {
      var n, a, b, c := MembersParts(s, j, e, ms);
      NameShift(s, i, n, ms.name);
    }
    if MembersAt(s, i, e, ms) {
      var n, a, b, c := MembersParts(s, i, e, ms);
      NameShift(s, i, n, ms.name);
    }
  }

  // ------------------------------------------------------------ what is accepted is of the language

  lemma {:induction false} WordsFound(s: bytes, i: nat)
    ensures HasAt(s, i, NULL_TEXT) <==> WordAt(s, i, i + 4, [110, 117, 108, 108])
    ensures HasAt(s, i, FALSE_TEXT) <==> WordAt(s, i, i + 5, [102, 97, 108, 115, 101])
    ensures HasAt(s, i, TRUE_TEXT) <==> WordAt(s, i, i + 4, [116, 114, 117, 101])
  {
  }

  lemma {:induction false} ValueFound(s: bytes, i: nat)
    requires i <= |s| && ParseValue(s, i).Done?
    ensures var r := ParseValue(s, i); ValueAt(s, i, r.end, r.value)
    decreases |s| - i, 0
  {
    hide ParseItems, ParseMembers, ParseString, ParseNumber, Skip, ItemsAt, MembersAt, StringAt, NumberAt, HasAt, WordAt;
    var c, r := At(s, i), ParseValue(s, i);
    WordsFound(s, i);
    if r.value.Number? {
      NumberExact(s, i, r.end, r.value.value);
    } else if r.value.String? {
      StringRead(s, i);
    } else if r.value.Array? {
      var j := Skip(s, i + 1);
      SkipBlanks(s, i + 1);
      if At(s, j) != 93 {
        ItemsFound(s, j);
        ItemsShift(s, i + 1, r.end, r.value.items);
      }
    } else if r.value.Object? {
      var j := Skip(s, i + 1);
      SkipBlanks(s, i + 1);
      if At(s, j) != 125 {
        MembersFound(s, j);
        MembersShift(s, i + 1, r.end, r.value.members);
      }
    }
  }

  lemma {:induction false} ItemsFound(s: bytes, i: nat)
    requires i <= |s| && ParseItems(s, i).Done?
    ensures var r := ParseItems(s, i); r.value.Item? && ItemsAt(s, i, r.end, r.value)
    decreases |s| - i, 1
  {
    hide ParseValue, Skip, ValueAt, Blanks;
    var r := ParseItems(s, i);
    var a := Skip(s, i);
    SkipBlanks(s, i);
    ValueFound(s, a);
    var b := ParseValue(s, a).end;
    var c := Skip(s, b);
    SkipBlanks(s, b);
    if At(s, c) == 44 { ItemsFound(s, c + 1); }
  }

  lemma {:induction false} NameFound(s: bytes, i: nat)
    requires i <= |s| && ParseName(s, i).Done?
    ensures var r := ParseName(s, i); NameAt(s, i, r.end, r.value)
  {
    hide ParseString, Skip, StringAt, Blanks;
    var a := Skip(s, i);
    SkipBlanks(s, i);
    StringRead(s, a);
    var b := ParseString(s, a).end;
    SkipBlanks(s, b);
    assert NameFrom(s, i, ParseName(s, i).end, ParseName(s, i).value, a, b, Skip(s, b));
  }

  lemma {:induction false} MembersFound(s: bytes, i: nat)
    requires i <= |s| && ParseMembers(s, i).Done?
    ensures var r := ParseMembers(s, i); r.value.Member? && MembersAt(s, i, r.end, r.value)
    decreases |s| - i, 1
  {
    hide ParseValue, ParseName, Skip, ValueAt, NameAt, Blanks;
    var r := ParseMembers(s, i);
    NameFound(s, i);
    var n := ParseName(s, i).end;
    var a := Skip(s, n);
    SkipBlanks(s, n);
    ValueFound(s, a);
    var b := ParseValue(s, a).end;
    var c := Skip(s, b);
    SkipBlanks(s, b);
    if At(s, c) == 44 { MembersFound(s, c + 1); }
  }

  // ------------------------------------------------------------ what is of the language is accepted

  lemma {:induction false} EmptyTaken(s: bytes, i: nat, e: nat, open: byte, close: byte)
    requires EmptyAt(s, i, e, open, close) && open != 0 && close > 32
    ensures i < |s| && At(s, i) == open && At(s, Skip(s, i + 1)) == close && e == Skip(s, i + 1) + 1
  {
    SkipIs(s, i + 1, e - 1);
  }

  lemma {:induction false} NoWord(s: bytes, i: nat, c: byte)
    requires At(s, i) == c && c != 110 && c != 102 && c != 116
    ensures !HasAt(s, i, NULL_TEXT) && !HasAt(s, i, FALSE_TEXT) && !HasAt(s, i, TRUE_TEXT)
  {
  }

  lemma {:induction false} ValueTaken(s: bytes, i: nat, e: nat, v: Json)
    requires ValueAt(s, i, e, v)
    ensures i <= |s| && (ParseValue(s, i) == Done(v, e) || ParseValue(s, i).Overrun?)
    decreases v
  {
    hide ParseItems, ParseMembers, ParseString, ParseNumber, Skip, ItemsAt, MembersAt, StringAt, NumberAt, HasAt, WordAt, EmptyAt;
    ValueFirst(s, i, e, v);
    match v
    case Null => WordTaken(s, i, e, v);
    case False => WordTaken(s, i, e, v);
    case True => WordTaken(s, i, e, v);
    case Number(x) =>
      NoWord(s, i, At(s, i));
      NumberExact(s, i, e, x);
    case String(t) =>
      NoWord(s, i, 34);
      StringTaken(s, i, e, t);
    case Array(items) =>
      NoWord(s, i, 91);
      if items.NoItem? {
        EmptyTaken(s, i, e, 91, 93);
      } else {
        ItemsShift(s, i + 1, e, items);
        ItemsTaken(s, Skip(s, i + 1), e, items);
      }
    case Object(ms) =>
      NoWord(s, i, 123);
      if ms.NoMember? {
        EmptyTaken(s, i, e, 123, 125);
      } else {
        MembersShift(s, i + 1, e, ms);
        MembersTaken(s, Skip(s, i + 1), e, ms);
      }
  }

  lemma {:induction false} WordBytes(s: bytes, i: nat)
    ensures HasAt(s, i, NULL_TEXT) ==> At(s, i) == 110
    ensures HasAt(s, i, FALSE_TEXT) ==> At(s, i) == 102
    ensures HasAt(s, i, TRUE_TEXT) ==> At(s, i) == 116
  {
    if HasAt(s, i, NULL_TEXT) { HasAtByte(s, i, NULL_TEXT, 0); }
    if HasAt(s, i, FALSE_TEXT) { HasAtByte(s, i, FALSE_TEXT, 0); }
    if HasAt(s, i, TRUE_TEXT) { HasAtByte(s, i, TRUE_TEXT, 0); }
  }

  lemma {:induction false} WordTaken(s: bytes, i: nat, e: nat, v: Json)
    requires (v.Null? || v.False? || v.True?) && ValueAt(s, i, e, v)
    ensures i <= |s| && ParseValue(s, i) == Done(v, e)
  {
    hide ParseItems, ParseMembers, ParseString, ParseNumber, HasAt, At, Skip, ItemsAt, MembersAt, StringAt, NumberAt;
    ValueFirst(s, i, e, v);
    WordsFound(s, i);
    WordBytes(s, i);
  }

  lemma {:induction false} ItemsTaken(s: bytes, i: nat, e: nat, items: Items)
    requires items.Item? && i <= |s| && ItemsAt(s, i, e, items)
    ensures ParseItems(s, i) == Done(items, e) || ParseItems(s, i).Overrun?
    decreases items
  {
    hide ParseValue, Skip, ValueAt, Blanks, ItemsAt;
    var a, b, c := ItemsParts(s, i, e, items);
    ValueFirst(s, a, b, items.head);
    SkipIs(s, i, a);
    ValueTaken(s, a, b, items.head);
    if ParseValue(s, a).Done? {
      SkipIs(s, b, c);
      if items.tail.Item? { ItemsTaken(s, c + 1, e, items.tail); }
    }
  }

  lemma {:induction false} NameTaken(s: bytes, i: nat, n: nat, name: bytes)
    requires i <= |s| && NameAt(s, i, n, name)
    ensures ParseName(s, i) == Done(name, n) || ParseName(s, i).Overrun?
  {
    hide ParseString, Skip, StringAt, Blanks;
    var a: nat, b: nat, c: nat :| NameFrom(s, i, n, name, a, b, c);
    StringFirst(s, a, b, name);
    SkipIs(s, i, a);
    StringTaken(s, a, b, name);
    if ParseString(s, a).Done? { SkipIs(s, b, c); }
  }

  lemma {:induction false} MembersTaken(s: bytes, i: nat, e: nat, ms: Members)
    requires ms.Member? && i <= |s| && MembersAt(s, i, e, ms)
    ensures ParseMembers(s, i) == Done(ms, e) || ParseMembers(s, i).Overrun?
    decreases ms
  {
    hide ParseValue, ParseName, Skip, ValueAt, NameAt, Blanks, MembersAt;
    var n, a, b, c := MembersParts(s, i, e, ms);
    NameTaken(s, i, n, ms.name);
    if ParseName(s, i).Done? {
      ValueFirst(s, a, b, ms.value);
      SkipIs(s, n, a);
      ValueTaken(s, a, b, ms.value);
      if ParseValue(s, a).Done? {
        SkipIs(s, b, c);
        if ms.rest.Member? { MembersTaken(s, c + 1, e, ms.rest); }
      }
    }
  }

  // ------------------------------------------------------------ whole texts

  /** The text begins with blanks and the value `v` and is read up to `e`. A strict reader goes on over
      blanks to the end of the text. */
  ghost predicate TextAt(s: bytes, strict: bool, e: nat, v: Json) {
    exists i: nat, j: nat :: Blanks(s, 0, i) && ValueAt(s, i, j, v) && EndsAt(s, strict, j, e)
  }

  predicate EndsAt(s: bytes, strict: bool, j: nat, e: nat) {
    if strict then Blanks(s, j, e) && At(s, e) == 0 else e == j
  }

  /** What is parsed is of the language, and what is of the language is parsed to its value, unless the
      parser leaves the text or an allocation on the way. */
  lemma {:induction false} ParsesOnly(s: bytes, strict: bool, e: nat, v: Json)
    ensures ParseText(s, strict) == Done(v, e) ==> TextAt(s, strict, e, v)
    ensures TextAt(s, strict, e, v) ==> ParseText(s, strict) == Done(v, e) || ParseText(s, strict).Overrun?
  {
    hide ParseValue, Skip, ValueAt, Blanks;
    var a := Skip(s, 0);
    SkipBlanks(s, 0);
    if ParseText(s, strict) == Done(v, e) {
      ValueFound(s, a);
      var j := ParseValue(s, a).end;
      SkipBlanks(s, j);
      assert Blanks(s, 0, a) && ValueAt(s, a, j, v) && EndsAt(s, strict, j, e);
    }
    if TextAt(s, strict, e, v) {
      var i: nat, j: nat :| Blanks(s, 0, i) && ValueAt(s, i, j, v) && EndsAt(s, strict, j, e);
      ValueFirst(s, i, j, v);
      SkipIs(s, 0, i);
      ValueTaken(s, i, j, v);
      if strict && ParseValue(s, i).Done? { SkipIs(s, j, e); }
    }
  }

  /** For all texts whose escapes are whole: a text is parsed to a value if and only if it is a text of the
      language for that value, and every other text is refused. */
  lemma {:induction false} ParsesExactly(s: bytes, strict: bool)
    requires WholeText(s)
    ensures forall e: nat, v: Json :: ParseText(s, strict) == Done(v, e) <==> TextAt(s, strict, e, v)
    ensures ParseText(s, strict).Fail? <==> forall e: nat, v: Json :: !TextAt(s, strict, e, v)
  {
    hide WholeText, ParseText, TextAt;
    TextStays(s, strict);
    forall e: nat, v: Json ensures ParseText(s, strict) == Done(v, e) <==> TextAt(s, strict, e, v) {
      ParsesOnly(s, strict, e, v);
    }
  }

  /** A strict reader reads all of a text without zero bytes. */
  lemma {:induction false} StrictReadsAll(s: bytes, e: nat, v: Json)
    requires NonZero(s) && TextAt(s, true, e, v)
    ensures e == |s|
  {
    hide ValueAt;
  }
}
