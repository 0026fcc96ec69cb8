/** Parsing undoes printing, for every value, nesting depth and format. */
module JsonRoundTrip {
  import opened Bytes
  import opened JsonText
  import opened JsonParse

  // ------------------------------------------------------------ whitespace

  predicate Blank(t: bytes) { forall i :: 0 <= i < |t| ==> 0 < t[i] <= 32 }

  lemma {:induction false} SkipBlank(s: bytes, i: nat, t: bytes, k: nat)
    requires HasAt(s, i, t) && Blank(t) && k <= |t|
    ensures Skip(s, i + k) == Skip(s, i + |t|)
    decreases |t| - k
  {
    if k < |t| {
      HasAtByte(s, i, t, k);
      SkipBlank(s, i, t, k + 1);
    }
  }

  lemma {:induction false} SkipStops(s: bytes, i: nat)
    requires i <= |s| && (At(s, i) == 0 || At(s, i) > 32)
    ensures Skip(s, i) == i
  {
  }

  /** Skipping over a blank text up to something that is not blank. */
  lemma {:induction false} SkipTo(s: bytes, i: nat, t: bytes)
    requires HasAt(s, i, t) && Blank(t) && At(s, i + |t|) > 32
    ensures Skip(s, i) == i + |t|
  {
    SkipBlank(s, i, t, 0);
    SkipStops(s, i + |t|);
  }

  // ------------------------------------------------------------ numbers

  /** What may follow a number so that it ends there. */
  predicate EndsNumber(c: byte) { !Digit(c) && c != 46 && c != 101 && c != 69 }

  lemma {:induction false} DigitsOfDecimal(s: bytes, i: nat, n: nat)
    requires HasAt(s, i, Decimal(n))
    ensures Digits(s, i, 0) == Digits(s, i + |Decimal(n)|, n)
    decreases n
  {
    if n < 10 {
      HasAtByte(s, i, Decimal(n), 0);
    } else {
      var a, d := Decimal(n / 10), [48 + n % 10];
      HasAtConcat(s, i, a, d);
      DigitsOfDecimal(s, i, n / 10);
      HasAtByte(s, i + |a|, d, 0);
    }
  }

  lemma {:induction false} FirstDigit(n: nat)
    ensures if n == 0 then Decimal(n) == [48] else 49 <= Decimal(n)[0] <= 57
    decreases n
  {
    if n >= 10 {
      FirstDigit(n / 10);
      assert Decimal(n)[0] == Decimal(n / 10)[0];
    }
  }

  lemma {:induction false} WholeOfDecimal(s: bytes, i: nat, n: nat)
    requires HasAt(s, i, Decimal(n)) && EndsNumber(At(s, i + |Decimal(n)|))
    ensures Whole(s, i) == (n, i + |Decimal(n)|)
  {
    FirstDigit(n);
    HasAtByte(s, i, Decimal(n), 0);
    if n > 0 { DigitsOfDecimal(s, i, n); }
  }

  lemma {:induction false} ParseInt(s: bytes, i: nat, n: int)
    requires HasAt(s, i, IntText(n)) && EndsNumber(At(s, i + |IntText(n)|))
    ensures ParseNumber(s, i) == (n as real, i + |IntText(n)|)
    ensures At(s, i) == 45 || Digit(At(s, i))
  {
    var end := i + |IntText(n)|;
    if n < 0 {
      HasAtConcat(s, i, [45], Decimal(-n));
      HasAtByte(s, i, [45], 0);
      WholeOfDecimal(s, i + 1, -n);
    } else {
      FirstDigit(n);
      HasAtByte(s, i, Decimal(n), 0);
      WholeOfDecimal(s, i, n);
    }
    assert Pow10(0) == 1.0;
  }

  // ------------------------------------------------------------ strings

  lemma {:induction false} EscapeParts(s: bytes, i: nat, t: bytes)
    requires t != [] && HasAt(s, i, EscapeAll(t) + [QUOTE])
    ensures HasAt(s, i, Escape(t[0])) && HasAt(s, i + |Escape(t[0])|, EscapeAll(t[1..]) + [QUOTE])
    ensures |EscapeAll(t)| == |Escape(t[0])| + |EscapeAll(t[1..])|
  {
    hide Escape, HasAt;
    ConcatAssoc(Escape(t[0]), EscapeAll(t[1..]), [QUOTE]);
    HasAtConcat(s, i, Escape(t[0]), EscapeAll(t[1..]) + [QUOTE]);
  }

  lemma {:induction false} HexOfDigit(d: nat)
    requires d < 16
    ensures HexValue(HexDigit(d)) == Some(d)
  {
  }

  /** One escaped byte is read back as that byte. */
  lemma {:induction false} ReadEscape(s: bytes, i: nat, c: byte)
    requires HasAt(s, i, Escape(c)) && c != 0
    ensures s[i] != QUOTE && s[i] != 0
    ensures if s[i] == BACKSLASH then UnescapeAt(s, i) == ([c], i + |Escape(c)|) else c == s[i] && |Escape(c)| == 1
  {
    HasAtBytes(s, i, Escape(c));
    assert s[i + 0] == Escape(c)[0];
    if |Escape(c)| > 1 {
      assert s[i + 1] == Escape(c)[1];
    }
    if |Escape(c)| == 6 {
      assert s[i + 2] == 48 && s[i + 3] == 48;
      assert s[i + 4] == Escape(c)[4] && s[i + 5] == Escape(c)[5];
      HexOfDigit(c / 16);
      HexOfDigit(c % 16);
      assert Hex4(s, i + 2) == c;
    }
  }

  lemma {:induction false} ReadEscaped(s: bytes, i: nat, t: bytes)
    requires HasAt(s, i, EscapeAll(t) + [QUOTE]) && NonZero(t)
    ensures ReadChars(s, i) == Done(t, i + |EscapeAll(t)|)
    decreases |t|
  {
    hide Escape, UnescapeAt, HasAt;
    if t == [] {
      HasAtByte(s, i, [] + [QUOTE], 0);
    } else {
      EscapeParts(s, i, t);
      ReadEscape(s, i, t[0]);
      ReadEscaped(s, i + |Escape(t[0])|, t[1..]);
      assert t == [t[0]] + t[1..];
    }
  }

  /** The first pass counts at least one for every escaped byte. */
  lemma {:induction false} CountEscape(s: bytes, i: nat, c: byte, n: nat, end: nat)
    requires HasAt(s, i, Escape(c)) && c != 0
    requires CountChars(s, i + |Escape(c)|) == Done(n, end)
    ensures CountChars(s, i) == Done(n + if |Escape(c)| == 6 then 5 else 1, end)
  {
    hide CountChars, HasAt;
    HasAtBytes(s, i, Escape(c));
    assert s[i + 0] == Escape(c)[0];
    if |Escape(c)| == 1 {
      CountOne(s, i, n, end);
    } else if |Escape(c)| == 2 {
      assert s[i + 1] == Escape(c)[1];
      CountTwo(s, i, n, end);
    } else {
      var t := Escape(c);
      assert s[i + 1] == t[1] == 117 && s[i + 2] == t[2] == 48 && s[i + 3] == t[3] == 48;
      assert s[i + 4] == t[4] && s[i + 5] == t[5];
      CountOne(s, i + 5, n, end);
      CountOne(s, i + 4, n + 1, end);
      CountOne(s, i + 3, n + 2, end);
      CountOne(s, i + 2, n + 3, end);
      CountTwo(s, i, n + 4, end);
    }
  }

  lemma {:induction false} CountEscaped(s: bytes, i: nat, t: bytes)
    requires HasAt(s, i, EscapeAll(t) + [QUOTE]) && NonZero(t)
    ensures var r := CountChars(s, i); r.Done? && r.value >= |t| && r.end == i + |EscapeAll(t)|
    decreases |t|
  {
    hide CountChars, Escape;
    if t == [] {
      HasAtByte(s, i, [] + [QUOTE], 0);
      CountStops(s, i);
    } else {
      EscapeParts(s, i, t);
      CountEscaped(s, i + |Escape(t[0])|, t[1..]);
      var r := CountChars(s, i + |Escape(t[0])|);
      CountEscape(s, i, t[0], r.value, r.end);
    }
  }

  lemma {:induction false} ParseQuoted(s: bytes, i: nat, t: bytes)
    requires HasAt(s, i, Quoted(t)) && NonZero(t)
    ensures ParseString(s, i) == Done(t, i + |Quoted(t)|)
    ensures s[i] == QUOTE
  {
    hide CountChars, ReadChars, EscapeAll;
    ConcatAssoc([QUOTE], EscapeAll(t), [QUOTE]);
    HasAtConcat(s, i, [QUOTE], EscapeAll(t) + [QUOTE]);
    HasAtByte(s, i, [QUOTE], 0);
    HasAtConcat(s, i + 1, EscapeAll(t), [QUOTE]);
    HasAtByte(s, i + 1 + |EscapeAll(t)|, [QUOTE], 0);
    ReadEscaped(s, i + 1, t);
    CountEscaped(s, i + 1, t);
  }

  // ------------------------------------------------------------ values

  lemma {:induction false} FirstByte(v: Json, depth: nat, fmt: bool)
    ensures var p := Print(v, depth, fmt); |p| > 0 && p[0] > 32 && p[0] != 93 && p[0] != 125
  {
    if v.Number? {
      FirstDigit(if v.value.Floor < 0 then -v.value.Floor else v.value.Floor);
    }
  }

  /** Words are recognised by their first byte. */
  lemma {:induction false} NotAWord(s: bytes, i: nat)
    requires i < |s| && s[i] != 110 && s[i] != 102 && s[i] != 116
    ensures !HasAt(s, i, NULL_TEXT) && !HasAt(s, i, FALSE_TEXT) && !HasAt(s, i, TRUE_TEXT)
  {
    if HasAt(s, i, NULL_TEXT) { HasAtByte(s, i, NULL_TEXT, 0); }
    if HasAt(s, i, FALSE_TEXT) { HasAtByte(s, i, FALSE_TEXT, 0); }
    if HasAt(s, i, TRUE_TEXT) { HasAtByte(s, i, TRUE_TEXT, 0); }
  }

  lemma {:induction false} ParseWord(s: bytes, i: nat, v: Json)
    requires v.Null? || v.False? || v.True?
    requires HasAt(s, i, Print(v, 0, false))
    ensures ParseValue(s, i) == Done(v, i + |Print(v, 0, false)|)
  {
    HasAtByte(s, i, Print(v, 0, false), 0);
    if HasAt(s, i, NULL_TEXT) { HasAtByte(s, i, NULL_TEXT, 0); }
    if HasAt(s, i, FALSE_TEXT) { HasAtByte(s, i, FALSE_TEXT, 0); }
  }

  lemma {:induction false} ParseScalar(s: bytes, i: nat, v: Json, depth: nat, fmt: bool)
    requires Ok(v) && !v.Array? && !v.Object?
    requires HasAt(s, i, Print(v, depth, fmt)) && EndsNumber(At(s, i + |Print(v, depth, fmt)|))
    ensures ParseValue(s, i) == Done(v, i + |Print(v, depth, fmt)|)
  {
    hide ParseNumber, ParseString, Decimal, EscapeAll;
    match v
    case Number(x) =>
      ParseInt(s, i, x.Floor);
      NotAWord(s, i);
    case String(t) =>
      ParseQuoted(s, i, t);
      NotAWord(s, i);
    case _ =>
      ParseWord(s, i, v);
  }

  lemma {:induction false} BlankParts(depth: nat, fmt: bool)
    ensures Blank(When(fmt, [TAB])) && Blank(When(fmt, [SPACE])) && Blank(When(fmt, [NEWLINE]))
    ensures Blank(When(fmt, Tabs(depth))) && Blank(When(fmt, [NEWLINE] + Tabs(depth)))
  {
  }

  // The pieces of a printed array element.

  lemma {:induction false} ItemParts(s: bytes, i: nat, items: Items, depth: nat, fmt: bool)
    requires items.Item? && HasAt(s, i, PrintItems(items, depth, fmt))
    ensures var p, q := |Print(items.head, depth, fmt)|, |PrintItems(items, depth, fmt)|;
            && HasAt(s, i, Print(items.head, depth, fmt))
            && (items.tail.NoItem? ==> q == p)
            && (items.tail.Item? ==>
                  && At(s, i + p) == COMMA
                  && HasAt(s, i + p + 1, When(fmt, [SPACE]))
                  && HasAt(s, i + p + 1 + |When(fmt, [SPACE])|, PrintItems(items.tail, depth, fmt))
                  && q == p + 1 + |When(fmt, [SPACE])| + |PrintItems(items.tail, depth, fmt)|)
  {
    hide Print, PrintItems, When, HasAt;
    var a, sep := Print(items.head, depth, fmt), if items.tail.NoItem? then [] else [COMMA] + When(fmt, [SPACE]);
    var rest := PrintItems(items.tail, depth, fmt);
    ItemsAre(items, depth, fmt);
    HasAtConcat(s, i, a + sep, rest);
    HasAtConcat(s, i, a, sep);
    if items.tail.Item? {
      HasAtConcat(s, i + |a|, [COMMA], When(fmt, [SPACE]));
      AtByte(s, i + |a|, COMMA);
    } else {
      NoItemsText(depth, fmt);
    }
  }

  lemma {:induction false} AtByte(s: bytes, i: nat, c: byte)
    requires HasAt(s, i, [c])
    ensures At(s, i) == c
  {
    HasAtByte(s, i, [c], 0);
  }

  lemma {:induction false} ItemsAre(items: Items, depth: nat, fmt: bool)
    requires items.Item?
    ensures PrintItems(items, depth, fmt) ==
            Print(items.head, depth, fmt) + (if items.tail.NoItem? then [] else [COMMA] + When(fmt, [SPACE]))
            + PrintItems(items.tail, depth, fmt)
  {
    hide Print, When;
  }

  lemma {:induction false} NoItemsText(depth: nat, fmt: bool)
    ensures PrintItems(NoItem, depth, fmt) == []
  {
  }

  lemma {:induction false} ItemsFirstByte(items: Items, depth: nat, fmt: bool)
    requires items.Item?
    ensures var p := PrintItems(items, depth, fmt); |p| > 0 && p[0] > 32 && p[0] != 93
  {
    FirstByte(items.head, depth, fmt);
    hide Print;
  }

  lemma {:induction false} SeparatorSkipped(s: bytes, i: nat, items: Items, depth: nat, fmt: bool)
    requires items.Item? && HasAt(s, i, When(fmt, [SPACE])) && HasAt(s, i + |When(fmt, [SPACE])|, PrintItems(items, depth, fmt))
    ensures Skip(s, i) == i + |When(fmt, [SPACE])|
  {
    ItemsFirstByte(items, depth, fmt);
    hide PrintItems;
    HasAtByte(s, i + |When(fmt, [SPACE])|, PrintItems(items, depth, fmt), 0);
    SkipTo(s, i, When(fmt, [SPACE]));
  }

  // The pieces of a printed member.

  lemma {:induction false} HeadParts(s: bytes, i: nat, name: bytes, depth: nat, fmt: bool)
    requires HasAt(s, i, MemberHead(name, depth, fmt))
    ensures HasAt(s, i, When(fmt, Tabs(depth)))
    ensures HasAt(s, i + |When(fmt, Tabs(depth))|, Quoted(name))
    ensures At(s, i + |When(fmt, Tabs(depth))| + |Quoted(name)|) == COLON
    ensures HasAt(s, i + |When(fmt, Tabs(depth))| + |Quoted(name)| + 1, When(fmt, [TAB]))
    ensures |MemberHead(name, depth, fmt)| == |When(fmt, Tabs(depth))| + |Quoted(name)| + 1 + |When(fmt, [TAB])|
  {
    var a, b, c := When(fmt, Tabs(depth)), Quoted(name), When(fmt, [TAB]);
    hide When, Quoted, Tabs;
    HasAtConcat(s, i, a + b + [COLON], c);
    HasAtConcat(s, i, a + b, [COLON]);
    HasAtConcat(s, i, a, b);
    HasAtByte(s, i + |a + b|, [COLON], 0);
  }

  lemma {:induction false} MembersSplit(ms: Members, depth: nat, fmt: bool)
    requires ms.Member?
    ensures PrintMembers(ms, depth, fmt) ==
            MemberHead(ms.name, depth, fmt) + Print(ms.value, depth, fmt) + MemberTail(ms.rest.NoMember?, fmt)
            + PrintMembers(ms.rest, depth, fmt)
  {
    hide MemberHead, Print, MemberTail;
  }

  lemma {:induction false} MemberParts(s: bytes, i: nat, ms: Members, depth: nat, fmt: bool)
    requires ms.Member? && HasAt(s, i, PrintMembers(ms, depth, fmt))
    ensures var h, p, t := |MemberHead(ms.name, depth, fmt)|, |Print(ms.value, depth, fmt)|, |MemberTail(ms.rest.NoMember?, fmt)|;
            && HasAt(s, i, MemberHead(ms.name, depth, fmt))
            && HasAt(s, i + h, Print(ms.value, depth, fmt))
            && HasAt(s, i + h + p, MemberTail(ms.rest.NoMember?, fmt))
            && HasAt(s, i + h + p + t, PrintMembers(ms.rest, depth, fmt))
            && |PrintMembers(ms, depth, fmt)| == h + p + t + |PrintMembers(ms.rest, depth, fmt)|
  {
    hide MemberHead, Print, MemberTail, PrintMembers, HasAt;
    var a, b, c, d := MemberHead(ms.name, depth, fmt), Print(ms.value, depth, fmt), MemberTail(ms.rest.NoMember?, fmt), PrintMembers(ms.rest, depth, fmt);
    MembersSplit(ms, depth, fmt);
    HasAtConcat(s, i, a + b + c, d);
    HasAtConcat(s, i, a + b, c);
    HasAtConcat(s, i, a, b);
  }

  /** Name, colon and the blank behind it are read up to the value. */
  lemma {:induction false} ParseHead(s: bytes, from: nat, i: nat, name: bytes, depth: nat, fmt: bool)
    requires NonZero(name) && HasAt(s, i, MemberHead(name, depth, fmt))
    requires from <= |s| && Skip(s, from) == i + |When(fmt, Tabs(depth))|
    requires At(s, i + |MemberHead(name, depth, fmt)|) > 32
    ensures var r := ParseName(s, from);
            r.Done? && r.value == name && Skip(s, r.end) == i + |MemberHead(name, depth, fmt)|
  {
    hide MemberHead, ParseString, Quoted, Skip, HasAt, When, Tabs, Blank, NonZero;
    HeadParts(s, i, name, depth, fmt);
    BlankParts(depth, fmt);
    var q := i + |When(fmt, Tabs(depth))|;
    ParseQuoted(s, q, name);
    SkipStops(s, q + |Quoted(name)|);
    SkipTo(s, q + |Quoted(name)| + 1, When(fmt, [TAB]));
  }

  // One turn of each list loop.

  lemma {:induction false} ItemsStep(s: bytes, from: nat, i: nat, v: Json, end: nat)
    requires from <= |s| && Skip(s, from) == i && i <= |s| && ParseValue(s, i) == Done(v, end) && end <= |s|
    ensures At(s, Skip(s, end)) == 93 ==> ParseItems(s, from) == Done(Item(v, NoItem), Skip(s, end) + 1)
    ensures At(s, Skip(s, end)) == COMMA ==>
              var r := ParseItems(s, Skip(s, end) + 1);
              r.Done? ==> ParseItems(s, from) == Done(Item(v, r.value), r.end)
  {
    hide ParseValue, Skip;
  }

  lemma {:induction false} MembersStep(s: bytes, from: nat, name: bytes, k: nat, v: Json, end: nat)
    requires from <= |s| && ParseName(s, from) == Done(name, k) && k <= |s|
    requires ParseValue(s, Skip(s, k)) == Done(v, end) && end <= |s|
    ensures At(s, Skip(s, end)) == 125 ==> ParseMembers(s, from) == Done(Member(name, v, NoMember), Skip(s, end) + 1)
    ensures At(s, Skip(s, end)) == COMMA ==>
              var r := ParseMembers(s, Skip(s, end) + 1);
              r.Done? ==> ParseMembers(s, from) == Done(Member(name, v, r.value), r.end)
  {
    hide ParseValue, Skip, ParseName;
  }

  lemma {:induction false} ArrayStep(s: bytes, i: nat)
    requires i < |s| && s[i] == 91
    ensures var j := Skip(s, i + 1);
            && (At(s, j) == 93 ==> ParseValue(s, i) == Done(Array(NoItem), j + 1))
            && (At(s, j) != 93 && ParseItems(s, j).Done? ==> ParseValue(s, i) == Done(Array(ParseItems(s, j).value), ParseItems(s, j).end))
  {
    NotAWord(s, i);
    hide Skip, ParseItems, HasAt;
  }

  lemma {:induction false} ObjectStep(s: bytes, i: nat)
    requires i < |s| && s[i] == 123
    ensures var j := Skip(s, i + 1);
            && (At(s, j) == 125 ==> ParseValue(s, i) == Done(Object(NoMember), j + 1))
            && (At(s, j) != 125 && ParseMembers(s, j).Done? ==> ParseValue(s, i) == Done(Object(ParseMembers(s, j).value), ParseMembers(s, j).end))
  {
    NotAWord(s, i);
    hide Skip, ParseMembers, HasAt;
  }

  // ------------------------------------------------------------ the theorem

  /** A printed value followed by nothing that could continue a number parses to that value, and
      parsing stops where the print ended. */
  lemma {:induction false} ParsePrinted(s: bytes, i: nat, v: Json, depth: nat, fmt: bool)
    requires Ok(v) && HasAt(s, i, Print(v, depth, fmt)) && EndsNumber(At(s, i + |Print(v, depth, fmt)|))
    ensures ParseValue(s, i) == Done(v, i + |Print(v, depth, fmt)|)
    decreases v, 1
  {
    if v.Array? {
      ParsePrintedArray(s, i, v.items, depth, fmt);
    } else if v.Object? {
      ParsePrintedObject(s, i, v.members, depth, fmt);
    } else {
      ParseScalar(s, i, v, depth, fmt);
    }
  }

  lemma {:induction false} ParsePrintedArray(s: bytes, i: nat, items: Items, depth: nat, fmt: bool)
    requires ItemsOk(items) && HasAt(s, i, Print(Array(items), depth, fmt))
    ensures ParseValue(s, i) == Done(Array(items), i + |Print(Array(items), depth, fmt)|)
    decreases items, 2
  {
    hide PrintItems, ParseValue, ParseItems, Skip, HasAt;
    ArrayParts(s, i, items, depth, fmt);
    SkipStops(s, i + 1);
    ArrayStep(s, i);
    if items.Item? {
      ParsePrintedItems(s, i + 1, i + 1, items, depth + 1, fmt);
    } else {
      NoItemsText(depth + 1, fmt);
    }
  }

  lemma {:induction false} ArrayParts(s: bytes, i: nat, items: Items, depth: nat, fmt: bool)
    requires HasAt(s, i, Print(Array(items), depth, fmt))
    ensures var inner := PrintItems(items, depth + 1, fmt);
            && i + 1 < |s| && s[i] == 91 && HasAt(s, i + 1, inner) && At(s, i + 1 + |inner|) == 93
            && i + |Print(Array(items), depth, fmt)| == i + 1 + |inner| + 1
            && s[i + 1] > 32 && (items.Item? ==> s[i + 1] != 93)
  {
    var inner := PrintItems(items, depth + 1, fmt);
    if items.Item? {
      ItemsFirstByte(items, depth + 1, fmt);
    } else {
      NoItemsText(depth + 1, fmt);
    }
    hide PrintItems;
    HasAtConcat(s, i, [91] + inner, [93]);
    HasAtConcat(s, i, [91], inner);
    HasAtByte(s, i, [91], 0);
    HasAtByte(s, i + 1 + |inner|, [93], 0);
    if items.Item? {
      HasAtByte(s, i + 1, inner, 0);
    }
  }

  lemma {:induction false} ParsePrintedItems(s: bytes, from: nat, i: nat, items: Items, depth: nat, fmt: bool)
    requires items.Item? && ItemsOk(items) && from <= |s| && Skip(s, from) == i
    requires HasAt(s, i, PrintItems(items, depth, fmt)) && At(s, i + |PrintItems(items, depth, fmt)|) == 93
    ensures ParseItems(s, from) == Done(items, i + |PrintItems(items, depth, fmt)| + 1)
    decreases items, 1
  {
    hide Print, PrintItems, ParseValue, ParseItems, Skip, HasAt, When;
    var e := i + |Print(items.head, depth, fmt)|;
    ItemParts(s, i, items, depth, fmt);
    HasAtInside(s, i, Print(items.head, depth, fmt));
    ParsePrinted(s, i, items.head, depth, fmt);
    ItemsStep(s, from, i, items.head, e);
    SkipStops(s, e);
    if items.tail.Item? {
      var j := e + 1 + |When(fmt, [SPACE])|;
      SeparatorSkipped(s, e + 1, items.tail, depth, fmt);
      ParsePrintedItems(s, e + 1, j, items.tail, depth, fmt);
    }
  }

  /** The blank between the braces of an object and what follows it. */
  lemma {:induction false} ParsePrintedObject(s: bytes, i: nat, ms: Members, depth: nat, fmt: bool)
    requires MembersOk(ms) && HasAt(s, i, Print(Object(ms), depth, fmt))
    ensures ParseValue(s, i) == Done(Object(ms), i + |Print(Object(ms), depth, fmt)|)
    decreases ms, 2
  {
    hide PrintMembers, ParseValue, ParseMembers, Skip, HasAt, When, Tabs;
    ObjectByte(s, i, ms, depth, fmt);
    ObjectStep(s, i);
    if ms.NoMember? {
      EmptyObject(s, i, depth, fmt);
    } else {
      ObjectParts(s, i, ms, depth, fmt);
      var j := i + 1 + |When(fmt, [NEWLINE])|;
      MembersSkipped(s, i + 1, When(fmt, [NEWLINE]), ms, depth + 1, fmt);
      var q := j + |When(fmt, Tabs(depth + 1))|;
      SkipStops(s, q);
      ParsePrintedMembers(s, q, j, ms, depth + 1, fmt);
    }
  }

  lemma {:induction false} ObjectByte(s: bytes, i: nat, ms: Members, depth: nat, fmt: bool)
    requires HasAt(s, i, Print(Object(ms), depth, fmt))
    ensures i < |s| && s[i] == 123
  {
    hide PrintMembers, When, Tabs;
    HasAtByte(s, i, Print(Object(ms), depth, fmt), 0);
  }

  lemma {:induction false} EmptyObject(s: bytes, i: nat, depth: nat, fmt: bool)
    requires HasAt(s, i, Print(Object(NoMember), depth, fmt))
    ensures var j := Skip(s, i + 1); At(s, j) == 125 && j + 1 == i + |Print(Object(NoMember), depth, fmt)|
  {
    hide When, Tabs, HasAt, Skip, Blank;
    var n := if depth > 0 then depth - 1 else 0;
    var gap := When(fmt, [NEWLINE] + Tabs(n));
    assert Print(Object(NoMember), depth, fmt) == [123] + gap + [125];
    BlankParts(n, fmt);
    HasAtConcat(s, i, [123] + gap, [125]);
    HasAtConcat(s, i, [123], gap);
    AtByte(s, i + 1 + |gap|, 125);
    SkipTo(s, i + 1, gap);
  }

  lemma {:induction false} ObjectParts(s: bytes, i: nat, ms: Members, depth: nat, fmt: bool)
    requires ms.Member? && HasAt(s, i, Print(Object(ms), depth, fmt))
    ensures var j := i + 1 + |When(fmt, [NEWLINE])|;
            var e := j + |PrintMembers(ms, depth + 1, fmt)|;
            && HasAt(s, i + 1, When(fmt, [NEWLINE]))
            && HasAt(s, j, PrintMembers(ms, depth + 1, fmt))
            && HasAt(s, e, When(fmt, Tabs(depth)))
            && At(s, e + |When(fmt, Tabs(depth))|) == 125
            && e + |When(fmt, Tabs(depth))| + 1 == i + |Print(Object(ms), depth, fmt)|
  {
    hide When, Tabs, PrintMembers;
    var a, b, c := When(fmt, [NEWLINE]), PrintMembers(ms, depth + 1, fmt), When(fmt, Tabs(depth));
    HasAtConcat(s, i, [123] + a + b + c, [125]);
    HasAtConcat(s, i, [123] + a + b, c);
    HasAtConcat(s, i, [123] + a, b);
    HasAtConcat(s, i, [123], a);
    HasAtByte(s, i + |[123] + a + b + c|, [125], 0);
  }

  /** A blank in front of a member list is skipped together with its first indentation. */
  lemma {:induction false} MembersSkipped(s: bytes, from: nat, gap: bytes, ms: Members, depth: nat, fmt: bool)
    requires ms.Member? && gap == When(fmt, [NEWLINE]) && HasAt(s, from, gap)
    requires HasAt(s, from + |gap|, PrintMembers(ms, depth, fmt))
    ensures var q := from + |gap| + |When(fmt, Tabs(depth))|; At(s, q) == QUOTE && Skip(s, from) == q
  {
    hide PrintMembers, MemberHead, When, Tabs, Print, MemberTail, Quoted;
    var i := from + |gap|;
    MemberParts(s, i, ms, depth, fmt);
    HeadParts(s, i, ms.name, depth, fmt);
    var q := i + |When(fmt, Tabs(depth))|;
    HasAtByte(s, q, Quoted(ms.name), 0);
    BlankParts(depth, fmt);
    SkipBlank(s, from, gap, 0);
    SkipTo(s, i, When(fmt, Tabs(depth)));
  }

  /** What follows the value of a member, and where the list goes on. */
  lemma {:induction false} TailParts(s: bytes, e: nat, last: bool, fmt: bool)
    requires HasAt(s, e, MemberTail(last, fmt))
    ensures !last ==> At(s, e) == COMMA && HasAt(s, e + 1, When(fmt, [NEWLINE])) && |MemberTail(last, fmt)| == 1 + |When(fmt, [NEWLINE])|
    ensures last ==> HasAt(s, e, When(fmt, [NEWLINE])) && |MemberTail(last, fmt)| == |When(fmt, [NEWLINE])|
  {
    var c := When(fmt, [NEWLINE]);
    hide When;
    HasAtConcat(s, e, if last then [] else [COMMA], c);
    if !last { HasAtByte(s, e, [COMMA], 0); }
  }

  lemma {:induction false} ParsePrintedMembers(s: bytes, from: nat, i: nat, ms: Members, depth: nat, fmt: bool)
    requires ms.Member? && MembersOk(ms) && depth > 0
    requires from <= |s| && Skip(s, from) == i + |When(fmt, Tabs(depth))|
    requires HasAt(s, i, PrintMembers(ms, depth, fmt))
    requires var e := i + |PrintMembers(ms, depth, fmt)|;
             HasAt(s, e, When(fmt, Tabs(depth - 1))) && At(s, e + |When(fmt, Tabs(depth - 1))|) == 125
    ensures ParseMembers(s, from) ==
            Done(ms, i + |PrintMembers(ms, depth, fmt)| + |When(fmt, Tabs(depth - 1))| + 1)
    decreases ms, 1
  {
    hide Print, PrintMembers, MemberHead, MemberTail, ParseValue, ParseMembers, ParseName, Skip, HasAt, When, Tabs, Blank;
    var v := i + |MemberHead(ms.name, depth, fmt)|;
    var e := v + |Print(ms.value, depth, fmt)|;
    MemberParts(s, i, ms, depth, fmt);
    FirstByte(ms.value, depth, fmt);
    HasAtByte(s, v, Print(ms.value, depth, fmt), 0);
    ParseHead(s, from, i, ms.name, depth, fmt);
    TailParts(s, e, ms.rest.NoMember?, fmt);
    HasAtInside(s, v, Print(ms.value, depth, fmt));
    if ms.rest.NoMember? {
      NoMembersText(depth, fmt);
      ClosingSkipped(s, e, depth - 1, fmt);
      ParsePrinted(s, v, ms.value, depth, fmt);
      MembersStep(s, from, ms.name, ParseName(s, from).end, ms.value, e);
    } else {
      ParsePrinted(s, v, ms.value, depth, fmt);
      MembersStep(s, from, ms.name, ParseName(s, from).end, ms.value, e);
      SkipStops(s, e);
      var j := e + 1 + |When(fmt, [NEWLINE])|;
      MembersSkipped(s, e + 1, When(fmt, [NEWLINE]), ms.rest, depth, fmt);
      ParsePrintedMembers(s, e + 1, j, ms.rest, depth, fmt);
    }
  }

  lemma {:induction false} NoMembersText(depth: nat, fmt: bool)
    ensures PrintMembers(NoMember, depth, fmt) == []
  {
  }

  lemma {:induction false} ClosingSkipped(s: bytes, e: nat, depth: nat, fmt: bool)
    requires HasAt(s, e, When(fmt, [NEWLINE]))
    requires var f := e + |When(fmt, [NEWLINE])|;
             HasAt(s, f, When(fmt, Tabs(depth))) && At(s, f + |When(fmt, Tabs(depth))|) == 125
    ensures Skip(s, e) == e + |When(fmt, [NEWLINE])| + |When(fmt, Tabs(depth))|
    ensures EndsNumber(At(s, e))
  {
    hide Tabs, Skip, Blank, HasAt, When;
    var f := e + |When(fmt, [NEWLINE])|;
    ClosingEnds(s, e, depth, fmt);
    BlankParts(depth, fmt);
    SkipBlank(s, e, When(fmt, [NEWLINE]), 0);
    SkipTo(s, f, When(fmt, Tabs(depth)));
  }

  lemma {:induction false} ClosingEnds(s: bytes, e: nat, depth: nat, fmt: bool)
    requires HasAt(s, e, When(fmt, [NEWLINE]))
    requires At(s, e + |When(fmt, [NEWLINE])| + |When(fmt, Tabs(depth))|) == 125
    ensures EndsNumber(At(s, e))
  {
    hide Tabs, HasAt;
    if fmt { HasAtByte(s, e, [NEWLINE], 0); }
  }

  /** cJSON_Parse of what cJSON_Print or cJSON_PrintUnformatted made of a tree is the tree, and all
      of the text is consumed. */
  lemma {:induction false} RoundTrip(v: Json, depth: nat, fmt: bool, strict: bool)
    requires Ok(v)
    ensures ParseText(Print(v, depth, fmt), strict) == Done(v, |Print(v, depth, fmt)|)
  {
    var s := Print(v, depth, fmt);
    FirstByte(v, depth, fmt);
    assert s[0..|s|] == s;
    hide Print, ParseValue, Skip;
    SkipStops(s, 0);
    ParsePrinted(s, 0, v, depth, fmt);
    SkipStops(s, |s|);
  }
}
