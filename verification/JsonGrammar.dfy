/** JSON texts of RFC 8259, with white space wherever its grammar allows it, and that the parser
    accepts every one of them. The value is the one it stands for exactly when no literal loses an
    escape. */
module JsonGrammar {
  import opened Bytes
  import opened JsonText
  import opened JsonParse
  import opened JsonRoundTrip
  import opened JsonLiteral

  // ------------------------------------------------------------ numbers

  datatype Exp = NoExp | Exp(mark: byte, sign: bytes, digits: bytes)

  /** A number of section 6: digits of the integer part, of the fraction, and the exponent. */
  datatype Num = Num(neg: bool, whole: bytes, frac: bytes, exp: Exp)

  predicate AllDigits(t: bytes) { forall i :: 0 <= i < |t| ==> Digit(t[i]) }

  predicate ExpOk(e: Exp) {
    match e
    case NoExp => true
    case Exp(mark, sign, digits) =>
      (mark == 101 || mark == 69) && (sign == [] || sign == [43] || sign == [45]) && digits != [] && AllDigits(digits)
  }

  predicate NumOk(n: Num) {
    && n.whole != [] && AllDigits(n.whole) && (n.whole[0] == 48 ==> |n.whole| == 1)
    && AllDigits(n.frac) && ExpOk(n.exp)
  }

  function ExpText(e: Exp): bytes {
    match e
    case NoExp => []
    case Exp(mark, sign, digits) => [mark] + (sign + digits)
  }

  function FracText(frac: bytes): bytes { if frac == [] then [] else [46] + frac }

  function MinusText(neg: bool): bytes { if neg then [45] else [] }

  function NumText(n: Num): bytes { MinusText(n.neg) + (n.whole + (FracText(n.frac) + ExpText(n.exp))) }

  /** The digits of `t` appended to the number `acc`. */
  function Fold(acc: nat, t: bytes): nat
    requires AllDigits(t)
    decreases |t|
  {
    if t == [] then acc else Fold(acc * 10 + (t[0] - 48) as nat, t[1..])
  }

  function ExpValue(e: Exp): int
    requires ExpOk(e)
  {
    match e
    case NoExp => 0
    case Exp(_, sign, digits) => if sign == [45] then -(Fold(0, digits) as int) else Fold(0, digits)
  }

  function NumValue(n: Num): real
    requires NumOk(n)
  {
    var m := Fold(0, n.whole + n.frac) as real;
    (if n.neg then -m else m) * Pow10(ExpValue(n.exp) - |n.frac|)
  }

  lemma {:induction false} FoldConcat(acc: nat, a: bytes, b: bytes)
    requires AllDigits(a) && AllDigits(b)
    ensures AllDigits(a + b) && Fold(acc, a + b) == Fold(Fold(acc, a), b)
    decreases |a|
  {
    if a == [] {
      assert a + b == b;
    } else {
      assert (a + b)[1..] == a[1..] + b && (a + b)[0] == a[0];
      FoldConcat(acc * 10 + (a[0] - 48) as nat, a[1..], b);
    }
  }

  lemma {:induction false} DigitsFold(s: bytes, i: nat, t: bytes, acc: nat)
    requires HasAt(s, i, t) && AllDigits(t) && !Digit(At(s, i + |t|))
    ensures Digits(s, i, acc) == (Fold(acc, t), i + |t|)
    decreases |t|
  {
    if t != [] {
      HasAtByte(s, i, t, 0);
      assert t == [t[0]] + t[1..];
      HasAtConcat(s, i, [t[0]], t[1..]);
      DigitsFold(s, i + 1, t[1..], acc * 10 + (t[0] - 48) as nat);
    }
  }

  lemma {:induction false} WholeRead(s: bytes, i: nat, t: bytes)
    requires HasAt(s, i, t) && t != [] && AllDigits(t) && (t[0] == 48 ==> |t| == 1) && !Digit(At(s, i + |t|))
    ensures Whole(s, i) == (Fold(0, t), i + |t|)
  {
    HasAtByte(s, i, t, 0);
    DigitsFold(s, i, t, 0);
    if t[0] == 48 {
      assert t[1..] == [];
      assert Fold(0, t) == Fold(0, []);
    }
  }

  lemma {:induction false} FractionRead(s: bytes, i: nat, t: bytes, n: nat)
    requires HasAt(s, i, FracText(t)) && AllDigits(t) && !Digit(At(s, i + |FracText(t)|))
    requires t == [] ==> At(s, i) != 46
    ensures Fraction(s, i, n) == (Fold(n, t), i + |FracText(t)|)
  {
    if t != [] {
      HasAtConcat(s, i, [46], t);
      HasAtByte(s, i, [46], 0);
      HasAtByte(s, i + 1, t, 0);
      DigitsFold(s, i + 1, t, n);
    }
  }

  lemma {:induction false} ExponentRead(s: bytes, i: nat, e: Exp)
    requires HasAt(s, i, ExpText(e)) && ExpOk(e) && EndsNumber(At(s, i + |ExpText(e)|))
    ensures Exponent(s, i) == (ExpValue(e), i + |ExpText(e)|)
  {
    hide HasAt, Digits, Fold, AllDigits;
    if e.Exp? {
      ExpBytes(s, i, e);
      DigitsFold(s, i + 1 + |e.sign|, e.digits, 0);
    }
  }

  lemma {:induction false} ExpBytes(s: bytes, i: nat, e: Exp)
    requires e.Exp? && ExpOk(e) && HasAt(s, i, ExpText(e))
    ensures i < |s| && At(s, i) == e.mark && HasAt(s, i + 1 + |e.sign|, e.digits)
    ensures if e.sign == [] then Digit(At(s, i + 1)) else At(s, i + 1) == e.sign[0] && i + 2 <= |s|
  {
    hide HasAt;
    HasAtConcat(s, i, [e.mark], e.sign + e.digits);
    FirstOf(s, i, [e.mark]);
    HasAtConcat(s, i + 1, e.sign, e.digits);
    FirstOf(s, i + 1 + |e.sign|, e.digits);
    if e.sign != [] { FirstOf(s, i + 1, e.sign); }
  }

  /** What follows the integer part, and the fraction, of a number. */
  lemma {:induction false} AfterDigits(s: bytes, i: nat, frac: bytes, e: Exp)
    requires ExpOk(e) && HasAt(s, i, FracText(frac) + ExpText(e))
    requires EndsNumber(At(s, i + |FracText(frac)| + |ExpText(e)|))
    ensures HasAt(s, i, FracText(frac)) && HasAt(s, i + |FracText(frac)|, ExpText(e))
    ensures !Digit(At(s, i)) && (frac == [] ==> At(s, i) != 46) && !Digit(At(s, i + |FracText(frac)|))
  {
    HasAtConcat(s, i, FracText(frac), ExpText(e));
    var k := i + |FracText(frac)|;
    if e.Exp? {
      HasAtByte(s, k, ExpText(e), 0);
    }
    if frac != [] {
      HasAtByte(s, i, FracText(frac), 0);
    }
  }

  /** Every number is parsed to its exact value. */
  lemma {:induction false} ParseNum(s: bytes, i: nat, n: Num)
    requires NumOk(n) && HasAt(s, i, NumText(n)) && EndsNumber(At(s, i + |NumText(n)|))
    ensures ParseNumber(s, i).0 == NumValue(n) && ParseNumber(s, i).1 == i + |NumText(n)|
    ensures At(s, i) == 45 || Digit(At(s, i))
  {
    hide Fold, Whole, Fraction, Exponent, Pow10, FracText, ExpText, ExpOk, EndsNumber, AllDigits, ParseNumber, ExpValue, HasAt, NumText;
    NumParts(s, i, n);
    var w := i + |MinusText(n.neg)|;
    var f := w + |n.whole|;
    AfterDigits(s, f, n.frac, n.exp);
    WholeRead(s, w, n.whole);
    FractionRead(s, f, n.frac, Fold(0, n.whole));
    FoldConcat(0, n.whole, n.frac);
    var k := f + |FracText(n.frac)|;
    ExponentRead(s, k, n.exp);
    FracSize(n.frac);
    var m := Fold(0, n.whole + n.frac);
    NumberIs(s, i, Fold(0, n.whole), f, m, k, ExpValue(n.exp), k + |ExpText(n.exp)|);
  }

  lemma {:induction false} FracSize(frac: bytes)
    ensures |FracText(frac)| == if frac == [] then 0 else |frac| + 1
  {
  }

  lemma {:induction false} NumParts(s: bytes, i: nat, n: Num)
    requires NumOk(n) && HasAt(s, i, NumText(n))
    ensures var w := i + |MinusText(n.neg)|;
            && w <= |s| && (n.neg <==> At(s, i) == 45) && (At(s, i) == 45 || Digit(At(s, i)))
            && HasAt(s, w, n.whole) && HasAt(s, w + |n.whole|, FracText(n.frac) + ExpText(n.exp))
            && |NumText(n)| == |MinusText(n.neg)| + |n.whole| + |FracText(n.frac)| + |ExpText(n.exp)|
  {
    hide FracText, ExpText, ExpOk;
    var rest := FracText(n.frac) + ExpText(n.exp);
    HasAtConcat(s, i, MinusText(n.neg), n.whole + rest);
    var w := i + |MinusText(n.neg)|;
    HasAtConcat(s, w, n.whole, rest);
    HasAtByte(s, w, n.whole, 0);
    if n.neg { HasAtByte(s, i, MinusText(n.neg), 0); }
  }

  // ------------------------------------------------------------ texts

  /** A value as it is written. `before` and `after` are the white space around a value. */
  datatype Doc =
    | DocNull
    | DocFalse
    | DocTrue
    | DocNumber(num: Num)
    | DocString(pieces: seq<Piece>)
    | DocArray(gap: bytes, elems: Elems)
    | DocObject(gap: bytes, fields: Fields)

  datatype Elems = NoElem | Elem(before: bytes, value: Doc, after: bytes, rest: Elems)

  datatype Fields =
    | NoField
    | Field(before: bytes, name: seq<Piece>, colon: bytes, lead: bytes, value: Doc, after: bytes, rest: Fields)

  predicate Space(t: bytes) { forall i :: 0 <= i < |t| ==> t[i] == 32 || t[i] == 9 || t[i] == 10 || t[i] == 13 }

  predicate DocOk(d: Doc) {
    match d
    case DocNumber(n) => NumOk(n)
    case DocString(ps) => AllOk(ps)
    case DocArray(gap, es) => Space(gap) && ElemsOk(es)
    case DocObject(gap, fs) => Space(gap) && FieldsOk(fs)
    case _ => true
  }

  predicate ElemsOk(es: Elems) {
    match es
    case NoElem => true
    case Elem(before, v, after, rest) => Space(before) && DocOk(v) && Space(after) && ElemsOk(rest)
  }

  predicate FieldsOk(fs: Fields) {
    match fs
    case NoField => true
    case Field(before, name, colon, lead, v, after, rest) =>
      && Space(before) && AllOk(name) && Space(colon) && Space(lead) && DocOk(v) && Space(after) && FieldsOk(rest)
  }

  function StringText(ps: seq<Piece>): bytes { [QUOTE] + (LiteralText(ps) + [QUOTE]) }

  /** The text of a value. Brackets around nothing may hold white space. */
  function Text(d: Doc): bytes {
    match d
    case DocNull => NULL_TEXT
    case DocFalse => FALSE_TEXT
    case DocTrue => TRUE_TEXT
    case DocNumber(n) => NumText(n)
    case DocString(ps) => StringText(ps)
    case DocArray(gap, es) => [91] + ((if es.NoElem? then gap else ElemsText(es)) + [93])
    case DocObject(gap, fs) => [123] + ((if fs.NoField? then gap else FieldsText(fs)) + [125])
  }

  function ElemsText(es: Elems): bytes {
    match es
    case NoElem => []
    case Elem(before, v, after, rest) =>
      before + (Text(v) + (after + if rest.NoElem? then [] else [COMMA] + ElemsText(rest)))
  }

  function FieldsText(fs: Fields): bytes {
    match fs
    case NoField => []
    case Field(before, name, colon, lead, v, after, rest) =>
      before + (StringText(name) + (colon + ([COLON] + (lead + (Text(v) + (after + if rest.NoField? then [] else [COMMA] + FieldsText(rest)))))))
  }

  /** The value it stands for, with strings as the parser decodes them. */
  function Value(d: Doc): Json
    requires DocOk(d)
  {
    match d
    case DocNull => Null
    case DocFalse => False
    case DocTrue => True
    case DocNumber(n) => Number(NumValue(n))
    case DocString(ps) => String(Decoded(ps))
    case DocArray(_, es) => Array(ElemsValue(es))
    case DocObject(_, fs) => Object(FieldsValue(fs))
  }

  function ElemsValue(es: Elems): Items
    requires ElemsOk(es)
  {
    match es
    case NoElem => NoItem
    case Elem(_, v, _, rest) => Item(Value(v), ElemsValue(rest))
  }

  function FieldsValue(fs: Fields): Members
    requires FieldsOk(fs)
  {
    match fs
    case NoField => NoMember
    case Field(_, name, _, _, v, _, rest) => Member(Decoded(name), Value(v), FieldsValue(rest))
  }

  // ------------------------------------------------------------ parsing

  lemma {:induction false} DocFirst(d: Doc)
    requires DocOk(d)
    ensures |Text(d)| > 0 && Text(d)[0] > 32 && Text(d)[0] != 93 && Text(d)[0] != 125
  {
    hide ElemsText, FieldsText, LiteralText, FracText, ExpText;
  }

  /** White space behind a value, up to what may follow it. */
  lemma {:induction false} AfterValue(s: bytes, e: nat, gap: bytes)
    requires HasAt(s, e, gap) && Space(gap)
    requires At(s, e + |gap|) == COMMA || At(s, e + |gap|) == 93 || At(s, e + |gap|) == 125
    ensures EndsNumber(At(s, e)) && Skip(s, e) == e + |gap|
  {
    hide Skip;
    SkipTo(s, e, gap);
    if gap != [] { HasAtByte(s, e, gap, 0); }
  }

  lemma {:induction false} SkipsTwice(s: bytes, i: nat)
    requires i <= |s|
    ensures Skip(s, Skip(s, i)) == Skip(s, i)
    decreases |s| - i
  {
    if At(s, i) != 0 && At(s, i) <= 32 { SkipsTwice(s, i + 1); }
  }

  lemma {:induction false} ItemsAfterSkip(s: bytes, i: nat)
    requires i <= |s|
    ensures ParseItems(s, Skip(s, i)) == ParseItems(s, i)
  {
    SkipsTwice(s, i);
    hide ParseValue, Skip;
  }

  lemma {:induction false} MembersAfterSkip(s: bytes, i: nat)
    requires i <= |s|
    ensures ParseMembers(s, Skip(s, i)) == ParseMembers(s, i)
  {
    hide ParseName, ParseValue, Skip;
    NameAfterSkip(s, i);
    SameName(s, Skip(s, i), i);
  }

  lemma {:induction false} NameAfterSkip(s: bytes, i: nat)
    requires i <= |s|
    ensures ParseName(s, Skip(s, i)) == ParseName(s, i)
  {
    hide Skip, ParseString;
    SkipsTwice(s, i);
  }

  lemma {:induction false} SameName(s: bytes, i: nat, j: nat)
    requires i <= |s| && j <= |s| && ParseName(s, i) == ParseName(s, j)
    ensures ParseMembers(s, i) == ParseMembers(s, j)
  {
    hide ParseName, ParseValue, Skip;
  }

  lemma {:induction false} ElemSplit(es: Elems)
    requires es.Elem?
    ensures ElemsText(es) ==
            es.before + (Text(es.value) + (es.after + if es.rest.NoElem? then [] else [COMMA] + ElemsText(es.rest)))
  {
    hide Text;
  }

  lemma {:induction false} ElemParts(s: bytes, i: nat, es: Elems)
    requires es.Elem? && HasAt(s, i, ElemsText(es))
    ensures var v := i + |es.before|;
            var e := v + |Text(es.value)|;
            var k := e + |es.after|;
            && HasAt(s, i, es.before) && HasAt(s, v, Text(es.value)) && HasAt(s, e, es.after)
            && (es.rest.NoElem? ==> |ElemsText(es)| == k - i)
            && (es.rest.Elem? ==> At(s, k) == COMMA && HasAt(s, k + 1, ElemsText(es.rest))
                                  && |ElemsText(es)| == k + 1 + |ElemsText(es.rest)| - i)
  {
    hide Text, ElemsText, HasAt;
    var tail := if es.rest.NoElem? then [] else [COMMA] + ElemsText(es.rest);
    ElemSplit(es);
    var v := i + |es.before|;
    var e := v + |Text(es.value)|;
    HasAtConcat(s, i, es.before, Text(es.value) + (es.after + tail));
    HasAtConcat(s, v, Text(es.value), es.after + tail);
    HasAtConcat(s, e, es.after, tail);
    if es.rest.Elem? {
      HasAtConcat(s, e + |es.after|, [COMMA], ElemsText(es.rest));
      AtByte(s, e + |es.after|, COMMA);
    }
  }

  /** Every JSON text is accepted, wherever it stands, with its strings as the parser decodes them. */
  lemma {:induction false} ParseDoc(s: bytes, i: nat, d: Doc)
    requires DocOk(d) && HasAt(s, i, Text(d)) && EndsNumber(At(s, i + |Text(d)|))
    ensures ParseValue(s, i) == Done(Value(d), i + |Text(d)|)
    decreases d, 1
  {
    hide ParseValue, HasAt, ElemsText, FieldsText, NumText, StringText, ElemsOk, FieldsOk, NumOk, AllOk, ElemsValue, FieldsValue, NumValue, Decoded, EndsNumber;
    match d
    case DocArray(gap, es) => ParseDocArray(s, i, gap, es);
    case DocObject(gap, fs) => ParseDocObject(s, i, gap, fs);
    case DocNull => ParseWord(s, i, Null);
    case DocFalse => ParseWord(s, i, False);
    case DocTrue => ParseWord(s, i, True);
    case DocNumber(n) => ParseDocNumber(s, i, n);
    case DocString(ps) => ParseDocString(s, i, ps);
  }

  lemma {:induction false} ParseDocNumber(s: bytes, i: nat, n: Num)
    requires NumOk(n) && HasAt(s, i, NumText(n)) && EndsNumber(At(s, i + |NumText(n)|))
    ensures ParseValue(s, i) == Done(Number(NumValue(n)), i + |NumText(n)|)
  {
    ParseNum(s, i, n);
    NotAWord(s, i);
    hide NumText, NumValue, ParseNumber, ParseItems, ParseMembers, ParseString, HasAt;
  }

  lemma {:induction false} ParseDocString(s: bytes, i: nat, ps: seq<Piece>)
    requires AllOk(ps) && HasAt(s, i, StringText(ps))
    ensures ParseValue(s, i) == Done(String(Decoded(ps)), i + |StringText(ps)|)
  {
    ParseLiteral(s, i, ps);
    HasAtByte(s, i, StringText(ps), 0);
    NotAWord(s, i);
    hide LiteralText, Decoded, AllOk, ParseString, ParseItems, ParseMembers, ParseNumber, HasAt, CountChars, ReadChars;
  }

  lemma {:induction false} ParseDocArray(s: bytes, i: nat, gap: bytes, es: Elems)
    requires Space(gap) && ElemsOk(es) && HasAt(s, i, Text(DocArray(gap, es)))
    ensures ParseValue(s, i) == Done(Array(ElemsValue(es)), i + |Text(DocArray(gap, es))|)
    decreases es, 2
  {
    hide ElemsText, ElemsOk, ElemsValue, ParseValue, ParseItems, Skip, HasAt;
    var inner := if es.NoElem? then gap else ElemsText(es);
    HasAtConcat(s, i, [91], inner + [93]);
    HasAtConcat(s, i + 1, inner, [93]);
    AtByte(s, i, 91);
    AtByte(s, i + 1 + |inner|, 93);
    ArrayStep(s, i);
    if es.NoElem? {
      NoValues();
      AfterValue(s, i + 1, gap);
    } else {
      ElemsFirst(s, i + 1, es);
      ItemsAfterSkip(s, i + 1);
      ParseElems(s, i + 1, es);
    }
  }

  lemma {:induction false} NoValues()
    ensures ElemsValue(NoElem) == NoItem && FieldsValue(NoField) == NoMember
  {
  }

  lemma {:induction false} ElemsFirst(s: bytes, i: nat, es: Elems)
    requires es.Elem? && ElemsOk(es) && HasAt(s, i, ElemsText(es))
    ensures Skip(s, i) == i + |es.before| && At(s, Skip(s, i)) > 32 && At(s, Skip(s, i)) != 93
  {
    hide Text, ElemsText, HasAt, Skip, DocOk;
    ElemParts(s, i, es);
    DocFirst(es.value);
    FirstOf(s, i + |es.before|, Text(es.value));
    SkipTo(s, i, es.before);
  }

  lemma {:induction false} FirstOf(s: bytes, i: nat, t: bytes)
    requires HasAt(s, i, t) && t != []
    ensures At(s, i) == t[0] && i + |t| <= |s|
  {
    HasAtByte(s, i, t, 0);
  }

  lemma {:induction false} ParseElems(s: bytes, i: nat, es: Elems)
    requires es.Elem? && ElemsOk(es) && HasAt(s, i, ElemsText(es)) && At(s, i + |ElemsText(es)|) == 93
    ensures ParseItems(s, i) == Done(ElemsValue(es), i + |ElemsText(es)| + 1)
    decreases es, 1
  {
    hide Text, ElemsText, HasAt, Skip, DocOk, Value, ParseValue, ParseItems, EndsNumber, Space;
    var v := i + |es.before|;
    var e := v + |Text(es.value)|;
    ElemParts(s, i, es);
    ElemsFirst(s, i, es);
    DocFirst(es.value);
    FirstOf(s, v, Text(es.value));
    AfterValue(s, e, es.after);
    ParseDoc(s, v, es.value);
    ItemsStep(s, i, v, Value(es.value), e);
    if es.rest.Elem? {
      ParseElems(s, e + |es.after| + 1, es.rest);
    } else {
      NoValues();
    }
  }

  // ------------------------------------------------------------ objects

  /** Positions in a field: its name, what follows the name, its value, what follows the value. */
  function NameAt(i: nat, fs: Fields): nat requires fs.Field? { i + |fs.before| }
  function ColonAt(i: nat, fs: Fields): nat requires fs.Field? { NameAt(i, fs) + |StringText(fs.name)| + |fs.colon| }
  function ValueAt(i: nat, fs: Fields): nat requires fs.Field? { ColonAt(i, fs) + 1 + |fs.lead| }
  function ValueEnd(i: nat, fs: Fields): nat requires fs.Field? { ValueAt(i, fs) + |Text(fs.value)| }

  /** What stands in front of the value, and the rest. */
  function FieldHead(fs: Fields): bytes
    requires fs.Field?
  {
    fs.before + (StringText(fs.name) + (fs.colon + ([COLON] + fs.lead)))
  }

  function FieldRest(fs: Fields): bytes
    requires fs.Field?
  {
    fs.after + if fs.rest.NoField? then [] else [COMMA] + FieldsText(fs.rest)
  }

  lemma {:induction false} FieldSplit(fs: Fields)
    requires fs.Field?
    ensures FieldsText(fs) == FieldHead(fs) + (Text(fs.value) + FieldRest(fs))
  {
    var rest := Text(fs.value) + FieldRest(fs);
    assert FieldsText(fs) == fs.before + (StringText(fs.name) + (fs.colon + ([COLON] + (fs.lead + rest))));
    hide Text, FieldsText, StringText;
    ConcatAssoc([COLON], fs.lead, rest);
    ConcatAssoc(fs.colon, [COLON] + fs.lead, rest);
    ConcatAssoc(StringText(fs.name), fs.colon + ([COLON] + fs.lead), rest);
    ConcatAssoc(fs.before, StringText(fs.name) + (fs.colon + ([COLON] + fs.lead)), rest);
  }

  lemma {:induction false} HeadAt(s: bytes, i: nat, fs: Fields)
    requires fs.Field? && HasAt(s, i, FieldHead(fs))
    ensures HasAt(s, i, fs.before) && HasAt(s, NameAt(i, fs), StringText(fs.name))
    ensures HasAt(s, NameAt(i, fs) + |StringText(fs.name)|, fs.colon) && At(s, ColonAt(i, fs)) == COLON
    ensures HasAt(s, ColonAt(i, fs) + 1, fs.lead) && i + |FieldHead(fs)| == ValueAt(i, fs) && ValueAt(i, fs) <= |s|
  {
    hide StringText, HasAt;
    HasAtInside(s, i, FieldHead(fs));
    HasAtConcat(s, i, fs.before, StringText(fs.name) + (fs.colon + ([COLON] + fs.lead)));
    HasAtConcat(s, NameAt(i, fs), StringText(fs.name), fs.colon + ([COLON] + fs.lead));
    HasAtConcat(s, NameAt(i, fs) + |StringText(fs.name)|, fs.colon, [COLON] + fs.lead);
    HasAtConcat(s, ColonAt(i, fs), [COLON], fs.lead);
    AtByte(s, ColonAt(i, fs), COLON);
  }

  lemma {:induction false} RestAt(s: bytes, e: nat, fs: Fields)
    requires fs.Field? && HasAt(s, e, FieldRest(fs))
    ensures HasAt(s, e, fs.after)
    ensures fs.rest.NoField? ==> |FieldRest(fs)| == |fs.after|
    ensures fs.rest.Field? ==> At(s, e + |fs.after|) == COMMA && HasAt(s, e + |fs.after| + 1, FieldsText(fs.rest))
                               && |FieldRest(fs)| == |fs.after| + 1 + |FieldsText(fs.rest)|
  {
    hide FieldsText, HasAt;
    HasAtConcat(s, e, fs.after, if fs.rest.NoField? then [] else [COMMA] + FieldsText(fs.rest));
    if fs.rest.Field? {
      HasAtConcat(s, e + |fs.after|, [COMMA], FieldsText(fs.rest));
      AtByte(s, e + |fs.after|, COMMA);
    }
  }

  /** The name of a field and its colon, with white space around them. */
  lemma {:induction false} ParseFieldName(s: bytes, i: nat, fs: Fields)
    requires fs.Field? && FieldsOk(fs) && HasAt(s, i, FieldHead(fs)) && At(s, ValueAt(i, fs)) > 32
    ensures ParseName(s, i) == Done(Decoded(fs.name), ColonAt(i, fs) + 1)
    ensures Skip(s, i) == NameAt(i, fs) && Skip(s, ColonAt(i, fs) + 1) == ValueAt(i, fs)
  {
    hide StringText, HasAt, Skip, Decoded, AllOk, ParseString, DocOk;
    HeadAt(s, i, fs);
    QuoteFirst(s, NameAt(i, fs), fs.name);
    SkipTo(s, i, fs.before);
    StringAt(s, NameAt(i, fs), fs.name);
    SkipTo(s, NameAt(i, fs) + |StringText(fs.name)|, fs.colon);
    SkipTo(s, ColonAt(i, fs) + 1, fs.lead);
  }

  lemma {:induction false} QuoteFirst(s: bytes, i: nat, ps: seq<Piece>)
    requires HasAt(s, i, StringText(ps))
    ensures At(s, i) == QUOTE && i + |StringText(ps)| <= |s|
  {
    HasAtByte(s, i, StringText(ps), 0);
  }

  lemma {:induction false} StringAt(s: bytes, i: nat, ps: seq<Piece>)
    requires AllOk(ps) && HasAt(s, i, StringText(ps))
    ensures ParseString(s, i) == Done(Decoded(ps), i + |StringText(ps)|)
  {
    ParseLiteral(s, i, ps);
    hide LiteralText, Decoded, AllOk, ParseString, HasAt, CountChars, ReadChars;
  }

  lemma {:induction false} ParseDocObject(s: bytes, i: nat, gap: bytes, fs: Fields)
    requires Space(gap) && FieldsOk(fs) && HasAt(s, i, Text(DocObject(gap, fs)))
    ensures ParseValue(s, i) == Done(Object(FieldsValue(fs)), i + |Text(DocObject(gap, fs))|)
    decreases fs, 2
  {
    hide FieldsText, FieldsOk, FieldsValue, ParseValue, ParseMembers, Skip, HasAt;
    var inner := if fs.NoField? then gap else FieldsText(fs);
    HasAtConcat(s, i, [123], inner + [125]);
    HasAtConcat(s, i + 1, inner, [125]);
    AtByte(s, i, 123);
    AtByte(s, i + 1 + |inner|, 125);
    ObjectStep(s, i);
    if fs.NoField? {
      NoValues();
      AfterValue(s, i + 1, gap);
    } else {
      FieldsFirst(s, i + 1, fs);
      MembersAfterSkip(s, i + 1);
      ParseFields(s, i + 1, fs);
    }
  }

  lemma {:induction false} FieldsFirst(s: bytes, i: nat, fs: Fields)
    requires fs.Field? && FieldsOk(fs) && HasAt(s, i, FieldsText(fs))
    ensures At(s, Skip(s, i)) == QUOTE
  {
    hide Text, FieldsText, HasAt, Skip, DocOk, StringText, AllOk;
    FieldSplit(fs);
    HasAtConcat(s, i, FieldHead(fs), Text(fs.value) + FieldRest(fs));
    HeadAt(s, i, fs);
    QuoteFirst(s, NameAt(i, fs), fs.name);
    SkipTo(s, i, fs.before);
  }

  lemma {:induction false} ParseFields(s: bytes, i: nat, fs: Fields)
    requires fs.Field? && FieldsOk(fs) && HasAt(s, i, FieldsText(fs)) && At(s, i + |FieldsText(fs)|) == 125
    ensures ParseMembers(s, i) == Done(FieldsValue(fs), i + |FieldsText(fs)| + 1)
    decreases fs, 1
  {
    hide Text, FieldsText, FieldHead, FieldRest, HasAt, Skip, DocOk, StringText, AllOk, Decoded, Value, ParseValue, ParseMembers, ParseName, EndsNumber, Space;
    FieldSplit(fs);
    HasAtConcat(s, i, FieldHead(fs), Text(fs.value) + FieldRest(fs));
    HeadAt(s, i, fs);
    var v, e := ValueAt(i, fs), ValueEnd(i, fs);
    HasAtConcat(s, v, Text(fs.value), FieldRest(fs));
    DocFirst(fs.value);
    FirstOf(s, v, Text(fs.value));
    ParseFieldName(s, i, fs);
    RestAt(s, e, fs);
    AfterValue(s, e, fs.after);
    ParseDoc(s, v, fs.value);
    MembersStep(s, i, Decoded(fs.name), ColonAt(i, fs) + 1, Value(fs.value), e);
    if fs.rest.Field? {
      ParseFields(s, e + |fs.after| + 1, fs.rest);
    } else {
      NoValues();
    }
  }

  // ------------------------------------------------------------ whole texts

  /** A whole text: white space, a value, white space. With `strict` everything is consumed. */
  lemma {:induction false} ParseJsonText(before: bytes, d: Doc, after: bytes, strict: bool)
    requires Space(before) && DocOk(d) && Space(after)
    ensures var s := before + (Text(d) + after);
            ParseText(s, strict) == Done(Value(d), if strict then |s| else |before| + |Text(d)|)
  {
    hide Text, Value, ParseValue, Skip, HasAt, DocOk, EndsNumber;
    var s := before + (Text(d) + after);
    var e := |before| + |Text(d)|;
    WholeText(before, Text(d), after);
    DocFirst(d);
    FirstOf(s, |before|, Text(d));
    SkipTo(s, 0, before);
    TrailingSpace(s, e, after);
    ParseDoc(s, |before|, d);
  }

  lemma {:induction false} WholeText(a: bytes, b: bytes, c: bytes)
    ensures HasAt(a + (b + c), 0, a) && HasAt(a + (b + c), |a|, b) && HasAt(a + (b + c), |a| + |b|, c)
  {
    var s := a + (b + c);
    assert s[0..|a|] == a && s[|a|..|a| + |b|] == b && s[|a| + |b|..|a| + |b| + |c|] == c;
  }

  lemma {:induction false} TrailingSpace(s: bytes, e: nat, after: bytes)
    requires HasAt(s, e, after) && Space(after) && e + |after| == |s|
    ensures EndsNumber(At(s, e)) && Skip(s, e) == |s|
  {
    SkipBlank(s, e, after, 0);
    SkipStops(s, |s|);
    if after != [] { HasAtByte(s, e, after, 0); }
  }

  // ------------------------------------------------------------ what the texts mean

  /** The value a text stands for, with strings as they are meant. */
  function Meant(d: Doc): Json
    requires DocOk(d)
  {
    match d
    case DocString(ps) => String(Meaning(ps))
    case DocArray(_, es) => Array(ElemsMeant(es))
    case DocObject(_, fs) => Object(FieldsMeant(fs))
    case _ => Value(d)
  }

  function ElemsMeant(es: Elems): Items
    requires ElemsOk(es)
  {
    match es
    case NoElem => NoItem
    case Elem(_, v, _, rest) => Item(Meant(v), ElemsMeant(rest))
  }

  function FieldsMeant(fs: Fields): Members
    requires FieldsOk(fs)
  {
    match fs
    case NoField => NoMember
    case Field(_, name, _, _, v, _, rest) => Member(Meaning(name), Meant(v), FieldsMeant(rest))
  }

  /** No literal of the text drops an escape that stood for something. */
  predicate DocLossless(d: Doc)
    requires DocOk(d)
  {
    match d
    case DocString(ps) => Lossless(ps)
    case DocArray(_, es) => ElemsLossless(es)
    case DocObject(_, fs) => FieldsLossless(fs)
    case _ => true
  }

  predicate ElemsLossless(es: Elems)
    requires ElemsOk(es)
  {
    match es
    case NoElem => true
    case Elem(_, v, _, rest) => DocLossless(v) && ElemsLossless(rest)
  }

  predicate FieldsLossless(fs: Fields)
    requires FieldsOk(fs)
  {
    match fs
    case NoField => true
    case Field(_, name, _, _, v, _, rest) => Lossless(name) && DocLossless(v) && FieldsLossless(rest)
  }

  lemma {:induction false} ValueExactly(d: Doc)
    requires DocOk(d)
    ensures Value(d) == Meant(d) <==> DocLossless(d)
    decreases d
  {
    hide Decoded, Meaning, Lossless, AllOk, NumOk, NumValue, Space;
    match d
    case DocString(ps) => DecodesExactly(ps);
    case DocArray(_, es) => ElemsExactly(es);
    case DocObject(_, fs) => FieldsExactly(fs);
    case _ =>
  }

  lemma {:induction false} ElemsExactly(es: Elems)
    requires ElemsOk(es)
    ensures ElemsValue(es) == ElemsMeant(es) <==> ElemsLossless(es)
    decreases es
  {
    hide Value, Meant, DocLossless, DocOk, Space;
    if es.Elem? {
      ValueExactly(es.value);
      ElemsExactly(es.rest);
    }
  }

  lemma {:induction false} FieldsExactly(fs: Fields)
    requires FieldsOk(fs)
    ensures FieldsValue(fs) == FieldsMeant(fs) <==> FieldsLossless(fs)
    decreases fs
  {
    hide Value, Meant, DocLossless, DocOk, Space, Decoded, Meaning, Lossless, AllOk;
    if fs.Field? {
      DecodesExactly(fs.name);
      ValueExactly(fs.value);
      FieldsExactly(fs.rest);
    }
  }

  /** A text is parsed to the value it stands for if and only if none of its literals loses an
      escape; in every case it is accepted and ends where its text ends. */
  lemma {:induction false} ParsesAsMeant(before: bytes, d: Doc, after: bytes, strict: bool)
    requires Space(before) && DocOk(d) && Space(after)
    ensures var r := ParseText(before + (Text(d) + after), strict);
            r.Done? && (r.value == Meant(d) <==> DocLossless(d))
  {
    hide Text, Value, Meant, DocLossless, ParseText, DocOk;
    ParseJsonText(before, d, after, strict);
    ValueExactly(d);
  }
}
