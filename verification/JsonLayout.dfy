/** The layout of printed texts, byte by byte: what stands between the parts of a value. */
module JsonLayout {
  import opened Bytes
  import opened JsonText
  import opened JsonParse
  import opened JsonLanguage

  function Repeat(c: byte, n: nat): (t: bytes)
    ensures |t| == n
  {
    seq(n, _ => c)
  }

  /** The parts one behind the other, with `sep` between them. */
  function Join(parts: seq<bytes>, sep: bytes): bytes {
    if parts == [] then [] else if |parts| == 1 then parts[0] else parts[0] + sep + Join(parts[1..], sep)
  }

  function Elements(items: Items): seq<Json> {
    match items
    case NoItem => []
    case Item(v, tail) => [v] + Elements(tail)
  }

  function Pairs(ms: Members): seq<(bytes, Json)> {
    match ms
    case NoMember => []
    case Member(name, v, rest) => [(name, v)] + Pairs(rest)
  }

  /** The texts of the elements. */
  function ElementTexts(vs: seq<Json>, depth: nat, fmt: bool): (r: seq<bytes>)
    ensures |r| == |vs|
  {
    seq(|vs|, i requires 0 <= i < |vs| => Print(vs[i], depth, fmt))
  }

  /** Each member on a line of its own, behind as many tabs as it is deep, and a tab behind its colon. */
  function MemberLines(ps: seq<(bytes, Json)>, depth: nat): (r: seq<bytes>)
    ensures |r| == |ps|
  {
    seq(|ps|, i requires 0 <= i < |ps| => Repeat(9, depth) + Quoted(ps[i].0) + [58, 9] + Print(ps[i].1, depth, true))
  }

  /** Name, colon and value. */
  function MemberTexts(ps: seq<(bytes, Json)>, depth: nat): (r: seq<bytes>)
    ensures |r| == |ps|
  {
    seq(|ps|, i requires 0 <= i < |ps| => Quoted(ps[i].0) + [58] + Print(ps[i].1, depth, false))
  }

  lemma {:induction false} ItemsJoined(items: Items, depth: nat, fmt: bool)
    ensures PrintItems(items, depth, fmt) == Join(ElementTexts(Elements(items), depth, fmt), if fmt then [44, 32] else [44])
    decreases items
  {
    hide Print;
    if items.Item? {
      var parts := ElementTexts(Elements(items), depth, fmt);
      ItemsJoined(items.tail, depth, fmt);
      assert parts[1..] == ElementTexts(Elements(items.tail), depth, fmt);
      if items.tail.Item? {
        assert [COMMA] + When(fmt, [SPACE]) == if fmt then [44, 32] else [44];
      } else {
        assert parts == [Print(items.head, depth, fmt)];
      }
    }
  }

  /** An array: its elements with a comma between them, and a blank behind it in a formatted text. */
  lemma {:induction false} ArrayLayout(items: Items, depth: nat, fmt: bool)
    ensures Print(Array(items), depth, fmt) ==
            [91] + Join(ElementTexts(Elements(items), depth + 1, fmt), if fmt then [44, 32] else [44]) + [93]
  {
    hide PrintItems, Join;
    ItemsJoined(items, depth + 1, fmt);
  }

  lemma {:induction false} HeadIs(name: bytes, depth: nat)
    ensures MemberHead(name, depth, true) == Repeat(9, depth) + Quoted(name) + [58, 9]
    ensures MemberHead(name, depth, false) == Quoted(name) + [58]
  {
    hide Quoted;
    assert Tabs(depth) == Repeat(9, depth);
    var a := Tabs(depth) + Quoted(name);
    assert a + [58] + [9] == a + [58, 9];
    assert [] + Quoted(name) + [COLON] + [] == Quoted(name) + [58];
  }

  lemma {:induction false} LinesJoined(ms: Members, depth: nat)
    requires ms.Member?
    ensures PrintMembers(ms, depth, true) == Join(MemberLines(Pairs(ms), depth), [44, 10]) + [10]
    decreases ms
  {
    hide Print, Quoted, MemberHead;
    var parts := MemberLines(Pairs(ms), depth);
    HeadIs(ms.name, depth);
    var p := MemberHead(ms.name, depth, true) + Print(ms.value, depth, true);
    assert parts[0] == p;
    assert parts[1..] == MemberLines(Pairs(ms.rest), depth);
    if ms.rest.Member? {
      LinesJoined(ms.rest, depth);
      var j := Join(MemberLines(Pairs(ms.rest), depth), [44, 10]);
      assert MemberTail(false, true) == [44, 10];
      assert p + [44, 10] + (j + [10]) == p + [44, 10] + j + [10];
    } else {
      assert MemberTail(true, true) == [10];
      assert p + [10] + [] == p + [10];
    }
  }

  lemma {:induction false} TextsJoined(ms: Members, depth: nat)
    ensures PrintMembers(ms, depth, false) == Join(MemberTexts(Pairs(ms), depth), [44])
    decreases ms
  {
    hide Print, Quoted, MemberHead;
    if ms.Member? {
      var parts := MemberTexts(Pairs(ms), depth);
      HeadIs(ms.name, depth);
      TextsJoined(ms.rest, depth);
      var p := MemberHead(ms.name, depth, false) + Print(ms.value, depth, false);
      assert parts[0] == p;
      assert parts[1..] == MemberTexts(Pairs(ms.rest), depth);
      if ms.rest.Member? {
        assert MemberTail(false, false) == [44];
      } else {
        assert MemberTail(true, false) == [];
        assert p + [] + [] == p;
      }
    }
  }

  /** A formatted object: a line for its brace and one for every member, its closing brace as deep as it is. */
  lemma {:induction false} ObjectLayout(ms: Members, depth: nat)
    requires ms.Member?
    ensures Print(Object(ms), depth, true) ==
            [123, 10] + Join(MemberLines(Pairs(ms), depth + 1), [44, 10]) + [10] + Repeat(9, depth) + [125]
  {
    hide PrintMembers, Join;
    LinesJoined(ms, depth + 1);
    assert Tabs(depth) == Repeat(9, depth);
    var j := Join(MemberLines(Pairs(ms), depth + 1), [44, 10]);
    assert [123] + [NEWLINE] == [123, 10];
    assert [123, 10] + (j + [10]) == [123, 10] + j + [10];
  }

  /** An unformatted object, and empty ones. */
  lemma {:induction false} PlainObjectLayout(ms: Members, depth: nat)
    ensures Print(Object(ms), depth, false) == [123] + Join(MemberTexts(Pairs(ms), depth + 1), [44]) + [125]
    ensures Print(Object(NoMember), depth, true) == [123, 10] + Repeat(9, if depth > 0 then depth - 1 else 0) + [125]
  {
    hide PrintMembers, Join, MemberTexts, Pairs, Tabs, Repeat;
    TextsJoined(ms, depth + 1);
    EmptyLine(if depth > 0 then depth - 1 else 0);
    NoMembers(depth + 1);
    var j := Join(MemberTexts(Pairs(ms), depth + 1), [44]);
    assert [123] + [] + j + [] == [123] + j;
  }

  lemma {:induction false} EmptyLine(n: nat)
    ensures [123] + ([NEWLINE] + Tabs(n)) == [123, 10] + Repeat(9, n)
  {
    assert Tabs(n) == Repeat(9, n);
  }

  lemma {:induction false} NoMembers(depth: nat)
    ensures PrintMembers(NoMember, depth, false) == []
  {
  }

  // ------------------------------------------------------------ strings and numbers

  /** Which characters of a string are escaped, and how. */
  lemma {:induction false} EscapeTable(c: byte)
    ensures c == 34 || c == 92 ==> Escape(c) == [92, c]
    ensures c == 8 ==> Escape(c) == [92, 98]
    ensures c == 12 ==> Escape(c) == [92, 102]
    ensures c == 10 ==> Escape(c) == [92, 110]
    ensures c == 13 ==> Escape(c) == [92, 114]
    ensures c == 9 ==> Escape(c) == [92, 116]
    ensures c >= 32 && c != 34 && c != 92 ==> Escape(c) == [c]
    ensures c < 32 && c !in {8, 9, 10, 12, 13} ==>
              && |Escape(c)| == 6 && Escape(c)[..5] == [92, 117, 48, 48, 48 + c / 16]
              && HexIs(Escape(c)[5], c as nat % 16) && !(65 <= Escape(c)[5] <= 70)
  {
  }

  lemma {:induction false} QuotedIs(s: bytes)
    ensures Quoted([]) == [34, 34]
    ensures s != [] ==> Quoted(s) == [34] + Escape(s[0]) + Quoted(s[1..])[1..]
  {
    hide Escape;
    if s == [] {
      assert Quoted([]) == [QUOTE] + [] + [QUOTE];
    } else {
      assert Quoted(s[1..])[1..] == EscapeAll(s[1..]) + [QUOTE];
      var a, b := Escape(s[0]), EscapeAll(s[1..]);
      assert [QUOTE] + (a + b) + [QUOTE] == [34] + a + (b + [QUOTE]);
    }
  }

  lemma {:induction false} DecimalIs(n: nat)
    ensures var t := Decimal(n);
            && (forall i :: 0 <= i < |t| ==> IsDigit(t[i])) && Tens(t) == n
            && (n == 0 <==> t[0] == 48) && (n == 0 ==> |t| == 1)
    decreases n
  {
    var t := Decimal(n);
    if n < 10 {
      assert t[..0] == [];
    } else {
      DecimalIs(n / 10);
      assert t[..|t| - 1] == Decimal(n / 10);
    }
  }

  /** The integers in scope are those of 32 bits. */
  lemma {:induction false} IntRange(n: int)
    ensures IntValue(n as real) <==> -0x8000_0000 <= n <= 0x7fff_ffff
  {
  }

  /** Printed integers are decimal, behind a minus sign when negative and without a leading zero. */
  lemma {:induction false} IntegerLayout(n: int)
    ensures var t := IntText(n);
            && (n < 0 <==> t[0] == 45)
            && var d := if n < 0 then t[1..] else t;
            && d != [] && (forall i :: 0 <= i < |d| ==> IsDigit(d[i])) && (d[0] == 48 ==> n == 0 && |d| == 1)
            && Tens(d) == if n < 0 then -n else n
  {
    hide Tens, Decimal;
    DecimalIs(if n < 0 then -n else n);
    if n < 0 { assert IntText(n)[1..] == Decimal(-n); }
  }
}
