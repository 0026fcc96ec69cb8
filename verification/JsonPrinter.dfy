/** The unbuffered printers. Each allocates the length it has computed beforehand and writes its
    text and a terminator into it. */
module JsonPrinter {
  import opened Bytes
  import opened JsonText
  import opened JsonWrite

  // ------------------------------------------------------------ printed text holds no zero byte

  lemma {:induction false} NonZeroConcat(a: bytes, b: bytes)
    requires NonZero(a) && NonZero(b)
    ensures NonZero(a + b)
  {
  }

  lemma {:induction false} DecimalNonZero(n: nat)
    ensures NonZero(Decimal(n))
    decreases n
  {
    if n >= 10 { DecimalNonZero(n / 10); }
  }

  lemma {:induction false} EscapedNonZero(s: bytes)
    requires NonZero(s)
    ensures NonZero(EscapeAll(s))
    decreases |s|
  {
    if s != [] {
      EscapedNonZero(s[1..]);
      NonZeroConcat(Escape(s[0]), EscapeAll(s[1..]));
    }
  }

  lemma {:induction false} QuotedNonZero(s: bytes)
    requires NonZero(s)
    ensures NonZero(Quoted(s))
  {
    hide EscapeAll;
    EscapedNonZero(s);
    NonZeroConcat([QUOTE], EscapeAll(s));
    NonZeroConcat([QUOTE] + EscapeAll(s), [QUOTE]);
  }

  lemma {:induction false} PrintNonZero(v: Json, depth: nat, fmt: bool)
    requires Ok(v)
    ensures NonZero(Print(v, depth, fmt))
    decreases v
  {
    hide Decimal, EscapeAll, Quoted, PrintItems, PrintMembers, NonZero, Tabs, When;
    match v
    case Array(items) =>
      ItemsNonZero(items, depth + 1, fmt);
      Brackets(91, PrintItems(items, depth + 1, fmt), 93);
    case Object(NoMember) =>
      BlankNonZero(if depth > 0 then depth - 1 else 0, fmt);
      Brackets(123, When(fmt, [NEWLINE] + Tabs(if depth > 0 then depth - 1 else 0)), 125);
    case Object(ms) =>
      MembersNonZero(ms, depth + 1, fmt);
      BlankNonZero(depth, fmt);
      var line, inner, tabs := When(fmt, [NEWLINE]), PrintMembers(ms, depth + 1, fmt), When(fmt, Tabs(depth));
      NonZeroConcat(line, inner);
      NonZeroConcat(line + inner, tabs);
      Brackets(123, line + inner + tabs, 125);
      ConcatAssoc([123], line, inner);
      ConcatAssoc([123], line + inner, tabs);
    case _ => ScalarNonZero(v, depth, fmt);
  }

  lemma {:induction false} Brackets(a: byte, t: bytes, b: byte)
    requires a != 0 && b != 0 && NonZero(t)
    ensures NonZero([a] + t + [b])
  {
  }

  lemma {:induction false} BlankNonZero(depth: nat, fmt: bool)
    ensures NonZero(When(fmt, Tabs(depth))) && NonZero(When(fmt, [NEWLINE])) && NonZero(When(fmt, [NEWLINE] + Tabs(depth)))
  {
  }

  lemma {:induction false} ScalarNonZero(v: Json, depth: nat, fmt: bool)
    requires Ok(v) && !v.Array? && !v.Object?
    ensures NonZero(Print(v, depth, fmt))
  {
    hide Decimal, Quoted;
    match v
    case Number(x) => DecimalNonZero(if x.Floor < 0 then -x.Floor else x.Floor);
    case String(s) => QuotedNonZero(s);
    case _ =>
  }

  lemma {:induction false} ItemsNonZero(items: Items, depth: nat, fmt: bool)
    requires ItemsOk(items)
    ensures NonZero(PrintItems(items, depth, fmt))
    decreases items
  {
    hide Print;
    if items.Item? {
      PrintNonZero(items.head, depth, fmt);
      ItemsNonZero(items.tail, depth, fmt);
    }
  }

  lemma {:induction false} MembersNonZero(ms: Members, depth: nat, fmt: bool)
    requires MembersOk(ms)
    ensures NonZero(PrintMembers(ms, depth, fmt))
    decreases ms
  {
    hide Print, Quoted;
    if ms.Member? {
      QuotedNonZero(ms.name);
      PrintNonZero(ms.value, depth, fmt);
      MembersNonZero(ms.rest, depth, fmt);
      assert NonZero(MemberHead(ms.name, depth, fmt)) && NonZero(MemberTail(ms.rest.NoMember?, fmt));
    }
  }

  // ------------------------------------------------------------ lengths computed beforehand

  function Flag(fmt: bool, n: nat): nat { if fmt then n else 0 }

  /** The number of bytes allocated for a value. */
  function Allocated(v: Json, depth: nat, fmt: bool): nat {
    match v
    case Null => 5
    case False => 6
    case True => 5
    case Number(x) => if x == 0.0 then 2 else 21
    case String(s) => |EscapeAll(s)| + 3
    case Array(NoItem) => 3
    case Array(items) => 5 + ItemsLength(items, depth + 1, fmt)
    case Object(NoMember) => if fmt then depth + 4 else 3
    case Object(ms) => 7 + Flag(fmt, depth + 1) + MembersLength(ms, depth + 1, fmt)
  }

  function ItemsLength(items: Items, depth: nat, fmt: bool): nat {
    match items
    case NoItem => 0
    case Item(v, tail) => |Print(v, depth, fmt)| + 2 + Flag(fmt, 1) + ItemsLength(tail, depth, fmt)
  }

  function MembersLength(ms: Members, depth: nat, fmt: bool): nat {
    match ms
    case NoMember => 0
    case Member(name, v, rest) =>
      |Print(v, depth, fmt)| + |Quoted(name)| + 2 + Flag(fmt, 2 + depth) + MembersLength(rest, depth, fmt)
  }

  lemma {:induction false} DecimalShort(n: nat)
    requires n <= 0x8000_0000
    ensures |Decimal(n)| <= 10
  {
    var a := n / 10;
    var b := a / 10;
    var c := b / 10;
    var d := c / 10;
    var e := d / 10;
    var f := e / 10;
    var g := f / 10;
    var h := g / 10;
    var i := h / 10;
    assert |Decimal(i)| <= 1;
    assert |Decimal(h)| <= 2;
    assert |Decimal(g)| <= 3;
    assert |Decimal(f)| <= 4;
    assert |Decimal(e)| <= 5;
    assert |Decimal(d)| <= 6;
    assert |Decimal(c)| <= 7;
    assert |Decimal(b)| <= 8;
    assert |Decimal(a)| <= 9;
  }

  lemma {:induction false} ItemsFit(items: Items, depth: nat, fmt: bool)
    ensures |PrintItems(items, depth, fmt)| <= ItemsLength(items, depth, fmt)
    decreases items
  {
    hide Print;
    if items.Item? { ItemsFit(items.tail, depth, fmt); }
  }

  lemma {:induction false} MembersFit(ms: Members, depth: nat, fmt: bool)
    ensures |PrintMembers(ms, depth, fmt)| <= MembersLength(ms, depth, fmt)
    decreases ms
  {
    hide Print, Quoted;
    if ms.Member? { MembersFit(ms.rest, depth, fmt); }
  }

  /** For every value, depth and format, text and terminator fit the length computed beforehand;
      strings use it exactly. */
  lemma {:induction false} PrintFits(v: Json, depth: nat, fmt: bool)
    requires Ok(v)
    ensures |Print(v, depth, fmt)| + 1 <= Allocated(v, depth, fmt)
    ensures v.String? ==> |Print(v, depth, fmt)| + 1 == Allocated(v, depth, fmt)
  {
    hide Decimal, PrintMembers, MembersLength;
    match v
    case Number(x) => NumberFits(x);
    case Array(items) => ItemsFit(items, depth + 1, fmt);
    case Object(ms) => MembersFit(ms, depth + 1, fmt);
    case _ =>
  }

  lemma {:induction false} NumberFits(x: real)
    requires IntValue(x)
    ensures |IntText(x.Floor)| < if x == 0.0 then 2 else 21
  {
    hide Decimal;
    DecimalShort(if x.Floor < 0 then -x.Floor else x.Floor);
    if x == 0.0 { ZeroText(); }
  }

  lemma {:induction false} ZeroText()
    ensures Decimal(0) == [48]
  {
  }

  function CountItems(items: Items): nat { if items.NoItem? then 0 else 1 + CountItems(items.tail) }

  lemma {:induction false} ItemsSpare(items: Items, depth: nat, fmt: bool)
    requires items.Item?
    ensures ItemsLength(items, depth, fmt) == |PrintItems(items, depth, fmt)| + CountItems(items) + 1 + if fmt then 1 else 0
    decreases items
  {
    hide Print;
    if items.tail.Item? { ItemsSpare(items.tail, depth, fmt); }
  }

  lemma {:induction false} MembersSpare(ms: Members, depth: nat, fmt: bool)
    requires ms.Member?
    ensures MembersLength(ms, depth, fmt) == |PrintMembers(ms, depth, fmt)| + 1
    decreases ms
  {
    hide Print, Quoted;
    if ms.rest.Member? { MembersSpare(ms.rest, depth, fmt); }
  }

  /** How many bytes of the computed length stay unused: none for words, strings and empty arrays, all but
      the digits of 20 for numbers other than zero, one for every element and three more for arrays (four
      when formatted), five for objects, and one for an empty formatted object that is not the root. */
  lemma {:induction false} SpareExactly(v: Json, depth: nat, fmt: bool)
    requires Ok(v)
    ensures Allocated(v, depth, fmt) - (|Print(v, depth, fmt)| + 1) ==
            match v
            case Number(x) => if x == 0.0 then 0 else 20 - |IntText(x.Floor)|
            case Array(items) => if items.NoItem? then 0 else CountItems(items) + 3 + (if fmt then 1 else 0)
            case Object(ms) => if ms.Member? then 5 else if fmt && depth > 0 then 1 else 0
            case _ => 0
  {
    hide Decimal, PrintItems, PrintMembers, ItemsLength, MembersLength, EscapeAll;
    match v
    case Number(x) => if x == 0.0 { ZeroText(); }
    case Array(items) =>
      NoText(depth + 1, fmt);
      if items.Item? { ItemsSpare(items, depth + 1, fmt); }
    case Object(ms) => if ms.Member? { MembersSpare(ms, depth + 1, fmt); }
    case _ =>
  }

  lemma {:induction false} NoText(depth: nat, fmt: bool)
    ensures PrintItems(NoItem, depth, fmt) == []
  {
  }

  // ------------------------------------------------------------ printed children

  /** The texts of an array's children. */
  function ItemTexts(items: Items, depth: nat, fmt: bool): seq<bytes> {
    match items
    case NoItem => []
    case Item(v, tail) => [Print(v, depth, fmt)] + ItemTexts(tail, depth, fmt)
  }

  function Separator(last: bool, fmt: bool): bytes { if last then [] else [COMMA] + When(fmt, [SPACE]) }

  function JoinItems(ts: seq<bytes>, fmt: bool): bytes {
    if ts == [] then [] else ts[0] + Separator(|ts| == 1, fmt) + JoinItems(ts[1..], fmt)
  }

  lemma {:induction false} JoinedItems(items: Items, depth: nat, fmt: bool)
    ensures JoinItems(ItemTexts(items, depth, fmt), fmt) == PrintItems(items, depth, fmt)
    decreases items
  {
    hide Print;
    if items.Item? {
      var ts := ItemTexts(items, depth, fmt);
      assert ts[1..] == ItemTexts(items.tail, depth, fmt);
      assert |ts| == 1 <==> items.tail.NoItem?;
      JoinedItems(items.tail, depth, fmt);
    }
  }

  /** The printed names and values of an object's members. */
  function NameTexts(ms: Members): (ts: seq<bytes>) {
    match ms
    case NoMember => []
    case Member(name, _, rest) => [Quoted(name)] + NameTexts(rest)
  }

  function ValueTexts(ms: Members, depth: nat, fmt: bool): (ts: seq<bytes>)
    ensures |ts| == |NameTexts(ms)|
  {
    match ms
    case NoMember => []
    case Member(_, v, rest) => [Print(v, depth, fmt)] + ValueTexts(rest, depth, fmt)
  }

  function JoinMembers(ns: seq<bytes>, ts: seq<bytes>, depth: nat, fmt: bool): bytes
    requires |ns| == |ts|
  {
    if ns == [] then []
    else When(fmt, Tabs(depth)) + ns[0] + [COLON] + When(fmt, [TAB]) + ts[0] + MemberTail(|ns| == 1, fmt)
         + JoinMembers(ns[1..], ts[1..], depth, fmt)
  }

  lemma {:induction false} JoinedMembers(ms: Members, depth: nat, fmt: bool)
    ensures JoinMembers(NameTexts(ms), ValueTexts(ms, depth, fmt), depth, fmt) == PrintMembers(ms, depth, fmt)
    decreases ms
  {
    hide Print, Quoted, When, Tabs, MemberTail;
    if ms.Member? {
      var ns, ts := NameTexts(ms), ValueTexts(ms, depth, fmt);
      assert ns[1..] == NameTexts(ms.rest) && ts[1..] == ValueTexts(ms.rest, depth, fmt);
      assert |ns| == 1 <==> ms.rest.NoMember?;
      JoinedMembers(ms.rest, depth, fmt);
    }
  }

  /** Every entry is a buffer holding its text. */
  ghost predicate EntriesHold(es: seq<array<byte>>, ts: seq<bytes>)
    reads es
  {
    |es| == |ts| && forall k :: 0 <= k < |es| ==> CString(es[k], ts[k]) && NonZero(ts[k])
  }

  // ------------------------------------------------------------ the printers

  method PrintNumber(x: real) returns (out: array<byte>)
    requires IntValue(x)
    ensures fresh(out) && out.Length == Allocated(Number(x), 0, false) && CString(out, IntText(x.Floor))
  {
    hide Decimal;
    NumberFits(x);
    ZeroText();
    out := new byte[if x == 0.0 then 2 else 21];
    assert out[..0] == [];
    var at := EmitAll(out, 0, if x == 0.0 then [48] else IntText(x.Floor));
    Terminate(out, at);
    assert [] + IntText(x.Floor) == IntText(x.Floor);
  }

  method PrintString(s: bytes) returns (out: array<byte>)
    requires NonZero(s)
    ensures fresh(out) && out.Length == |Quoted(s)| + 1 && CString(out, Quoted(s))
  {
    hide EscapeAll, AnySpecial, NonZero;
    var flag := NeedsEscape(s);
    var len;
    if flag {
      len := EscapedLength(s);
    } else {
      len := |s|;
      EscapeNothing(s);
    }
    out := new byte[len + 3];
    var at := EmitQuoted(out, 0, s, flag);
    assert [] + Quoted(s) == Quoted(s);
  }

  /** strdup of a literal. */
  method Duplicate(t: bytes) returns (out: array<byte>)
    ensures fresh(out) && out.Length == |t| + 1 && CString(out, t)
  {
    out := new byte[|t| + 1];
    var at := EmitAll(out, 0, t);
    Terminate(out, at);
    assert [] + t == t;
  }

  /** print_value without a buffer: the allocated length is the one computed, and the text is
      `Print` with a terminator. */
  method PrintValue(v: Json, depth: nat, fmt: bool) returns (out: array<byte>)
    requires Ok(v)
    ensures fresh(out) && out.Length == Allocated(v, depth, fmt) && CString(out, Print(v, depth, fmt))
    decreases v, 1
  {
    hide Decimal, EscapeAll, NonZero, CString, ItemsLength, MembersLength, PrintItems, PrintMembers;
    match v
    case Null => out := Duplicate(NULL_TEXT);
    case False => out := Duplicate(FALSE_TEXT);
    case True => out := Duplicate(TRUE_TEXT);
    case Number(x) => out := PrintNumber(x);
    case String(s) => out := PrintString(s);
    case Array(items) => out := PrintArray(items, depth, fmt);
    case Object(ms) => out := PrintObject(ms, depth, fmt);
  }

  method PrintArray(items: Items, depth: nat, fmt: bool) returns (out: array<byte>)
    requires ItemsOk(items)
    ensures fresh(out) && out.Length == Allocated(Array(items), depth, fmt)
    ensures CString(out, Print(Array(items), depth, fmt))
    decreases items, 2
  {
    if items.NoItem? {
      out := Duplicate([91, 93]);
      assert [91] + [] + [93] == [91, 93];
      return;
    }
    var entries, len := PrintChildren(items, depth + 1, fmt);
    out := new byte[len];
    JoinedItems(items, depth + 1, fmt);
    ItemsFit(items, depth + 1, fmt);
    ghost var ts := ItemTexts(items, depth + 1, fmt);
    hide CString, JoinItems, EntriesHold;
    var at := Emit(out, 0, 91);
    assert [] + [91] == [91];
    at := WriteEntries(out, at, entries, ts, fmt);
    at := Emit(out, at, 93);
    Terminate(out, at);
    CStringIntro(out, Print(Array(items), depth, fmt));
  }

  lemma {:induction false} CStringIntro(a: array<byte>, t: bytes)
    requires |t| < a.Length && a[..|t|] == t && a[|t|] == 0
    ensures CString(a, t)
  {
  }

  lemma {:induction false} ItemsUnfold(items: Items, depth: nat, fmt: bool)
    requires ItemsOk(items)
    ensures items.NoItem? ==> ItemTexts(items, depth, fmt) == [] && ItemsLength(items, depth, fmt) == 0
    ensures items.Item? ==>
              && Ok(items.head) && ItemsOk(items.tail) && NonZero(Print(items.head, depth, fmt))
              && ItemTexts(items, depth, fmt) == [Print(items.head, depth, fmt)] + ItemTexts(items.tail, depth, fmt)
              && ItemsLength(items, depth, fmt)
                 == |Print(items.head, depth, fmt)| + 2 + Flag(fmt, 1) + ItemsLength(items.tail, depth, fmt)
  {
    hide Print;
    if items.Item? { PrintNonZero(items.head, depth, fmt); }
  }

  lemma {:induction false} OneMoreEntry(es: seq<array<byte>>, ts: seq<bytes>, e: array<byte>, t: bytes)
    requires EntriesHold(es, ts) && CString(e, t) && NonZero(t)
    ensures EntriesHold(es + [e], ts + [t])
  {
    hide CString, NonZero;
  }

  lemma {:induction false} NoEntries()
    ensures EntriesHold([], [])
  {
  }

  /** The first loop: print every child and add up the length. */
  method PrintChildren(items: Items, depth: nat, fmt: bool) returns (entries: seq<array<byte>>, len: nat)
    requires ItemsOk(items)
    ensures EntriesHold(entries, ItemTexts(items, depth, fmt))
    ensures len == 5 + ItemsLength(items, depth, fmt)
    ensures forall e :: e in entries ==> fresh(e)
    decreases items, 1
  {
    hide Print, CString, ItemTexts, ItemsLength, EntriesHold, NonZero, ItemsOk, Ok;
    entries, len := [], 5;
    NoEntries();
    var child := items;
    ghost var ts: seq<bytes> := [];
    while child.Item?
      invariant ItemsOk(child)
      invariant child == items || child < items
      invariant EntriesHold(entries, ts)
      invariant forall e :: e in entries ==> fresh(e)
      invariant ts + ItemTexts(child, depth, fmt) == ItemTexts(items, depth, fmt)
      invariant len + ItemsLength(child, depth, fmt) == 5 + ItemsLength(items, depth, fmt)
      decreases child
    {
      ghost var t := Print(child.head, depth, fmt);
      ItemsUnfold(child, depth, fmt);
      var ret := PrintValue(child.head, depth, fmt);
      var n := TextLength(ret, t);
      OneMoreEntry(entries, ts, ret, t);
      ConcatAssoc(ts, [t], ItemTexts(child.tail, depth, fmt));
      entries, len, ts := entries + [ret], len + n + 2 + Flag(fmt, 1), ts + [t];
      child := child.tail;
    }
    ItemsUnfold(child, depth, fmt);
    assert ts + [] == ts;
  }

  /** The second loop: put the children one behind the other with separators between them. */
  method WriteEntries(out: array<byte>, from: nat, entries: seq<array<byte>>, ghost ts: seq<bytes>, fmt: bool) returns (at: nat)
    requires EntriesHold(entries, ts) && out !in entries
    requires from + |JoinItems(ts, fmt)| + 2 <= out.Length
    modifies out
    ensures at == from + |JoinItems(ts, fmt)| && out[..at] == old(out[..from]) + JoinItems(ts, fmt)
  {
    at := from;
    for i := 0 to |entries|
      invariant EntriesHold(entries, ts)
      invariant at + |JoinItems(ts[i..], fmt)| == from + |JoinItems(ts, fmt)|
      invariant out[..at] + JoinItems(ts[i..], fmt) == old(out[..from]) + JoinItems(ts, fmt)
    {
      at := WriteEntry(out, at, entries[i], ts[i..], fmt, i == |entries| - 1);
      assert ts[i..][1..] == ts[i + 1..];
    }
  }

  method WriteEntry(out: array<byte>, from: nat, e: array<byte>, ghost ts: seq<bytes>, fmt: bool, last: bool) returns (at: nat)
    requires ts != [] && out != e && CString(e, ts[0]) && NonZero(ts[0]) && last == (|ts| == 1)
    requires from + |JoinItems(ts, fmt)| + 2 <= out.Length
    modifies out
    ensures at + |JoinItems(ts[1..], fmt)| == from + |JoinItems(ts, fmt)|
    ensures out[..at] + JoinItems(ts[1..], fmt) == old(out[..from]) + JoinItems(ts, fmt)
  {
    ghost var rest := JoinItems(ts[1..], fmt);
    assert JoinItems(ts, fmt) == ts[0] + Separator(last, fmt) + rest;
    hide JoinItems;
    var n := TextLength(e, ts[0]);
    at := EmitAll(out, from, e[..n]);
    if !last {
      at := Emit(out, at, COMMA);
      at := EmitWhen(out, at, fmt, SPACE);
      Terminate(out, at);
    }
    assert out[..at] == old(out[..from]) + ts[0] + Separator(last, fmt);
    ConcatAssoc(old(out[..from]), ts[0], Separator(last, fmt));
    ConcatAssoc(old(out[..from]), ts[0] + Separator(last, fmt), rest);
  }

  method PrintObject(ms: Members, depth: nat, fmt: bool) returns (out: array<byte>)
    requires MembersOk(ms)
    ensures fresh(out) && out.Length == Allocated(Object(ms), depth, fmt)
    ensures CString(out, Print(Object(ms), depth, fmt))
    decreases ms, 2
  {
    if ms.NoMember? {
      out := PrintEmptyObject(depth, fmt);
      return;
    }
    out := PrintFullObject(ms, depth, fmt);
  }

  method PrintEmptyObject(depth: nat, fmt: bool) returns (out: array<byte>)
    ensures fresh(out) && out.Length == Allocated(Object(NoMember), depth, fmt)
    ensures CString(out, Print(Object(NoMember), depth, fmt))
  {
    out := new byte[if fmt then depth + 4 else 3];
    var n := if depth > 0 then depth - 1 else 0;
    var at := Emit(out, 0, 123);
    assert [] + [123] == [123];
    if fmt {
      at := Emit(out, at, NEWLINE);
      at := EmitTabs(out, at, n);
      ConcatAssoc([123], [NEWLINE], Tabs(n));
    } else {
      assert [123] + [] == [123];
    }
    at := Emit(out, at, 125);
    Terminate(out, at);
  }

  method PrintFullObject(ms: Members, depth: nat, fmt: bool) returns (out: array<byte>)
    requires ms.Member? && MembersOk(ms)
    ensures fresh(out) && out.Length == Allocated(Object(ms), depth, fmt)
    ensures CString(out, Print(Object(ms), depth, fmt))
    decreases ms, 1
  {
    hide CString, JoinMembers, EntriesHold, PrintMembers, MembersLength, Tabs, When, NameTexts, ValueTexts;
    var names, entries, len := PrintPairs(ms, depth + 1, fmt);
    out := new byte[len];
    ghost var ns, ts := NameTexts(ms), ValueTexts(ms, depth + 1, fmt);
    JoinedMembers(ms, depth + 1, fmt);
    ghost var text := PrintMembers(ms, depth + 1, fmt);
    ObjectRoom(ms, depth, fmt);
    var at := Emit(out, 0, 123);
    at := EmitWhen(out, at, fmt, NEWLINE);
    Terminate(out, at);
    at := WritePairs(out, at, names, entries, ns, ts, depth + 1, fmt);
    at := EmitIndent(out, at, fmt, depth);
    at := Emit(out, at, 125);
    Terminate(out, at);
    assert [] + [123] == [123];
    assert out[..at] == Print(Object(ms), depth, fmt);
    CStringIntro(out, Print(Object(ms), depth, fmt));
  }

  lemma {:induction false} ObjectRoom(ms: Members, depth: nat, fmt: bool)
    ensures 1 + |When(fmt, [NEWLINE])| + |PrintMembers(ms, depth + 1, fmt)| + |When(fmt, Tabs(depth))| + 2
            <= 7 + Flag(fmt, depth + 1) + MembersLength(ms, depth + 1, fmt)
  {
    hide PrintMembers, MembersLength;
    MembersFit(ms, depth + 1, fmt);
  }

  lemma {:induction false} MembersUnfold(ms: Members, depth: nat, fmt: bool)
    requires MembersOk(ms)
    ensures ms.NoMember? ==>
              NameTexts(ms) == [] && ValueTexts(ms, depth, fmt) == [] && MembersLength(ms, depth, fmt) == 0
    ensures ms.Member? ==>
              && NonZero(ms.name) && Ok(ms.value) && MembersOk(ms.rest)
              && NonZero(Quoted(ms.name)) && NonZero(Print(ms.value, depth, fmt))
              && NameTexts(ms) == [Quoted(ms.name)] + NameTexts(ms.rest)
              && ValueTexts(ms, depth, fmt) == [Print(ms.value, depth, fmt)] + ValueTexts(ms.rest, depth, fmt)
              && MembersLength(ms, depth, fmt)
                 == |Print(ms.value, depth, fmt)| + |Quoted(ms.name)| + 2 + Flag(fmt, 2 + depth) + MembersLength(ms.rest, depth, fmt)
  {
    hide Print, Quoted;
    if ms.Member? {
      PrintNonZero(ms.value, depth, fmt);
      QuotedNonZero(ms.name);
    }
  }

  /** The first loop: print every name and value and add up the length. */
  method PrintPairs(ms: Members, depth: nat, fmt: bool) returns (names: seq<array<byte>>, entries: seq<array<byte>>, len: nat)
    requires MembersOk(ms)
    ensures EntriesHold(names, NameTexts(ms)) && EntriesHold(entries, ValueTexts(ms, depth, fmt))
    ensures len == 7 + Flag(fmt, depth) + MembersLength(ms, depth, fmt)
    ensures forall e :: e in names || e in entries ==> fresh(e)
    decreases ms, 0
  {
    hide Print, Quoted, CString, NameTexts, ValueTexts, MembersLength, EntriesHold, NonZero, MembersOk, Ok;
    names, entries, len := [], [], 7 + Flag(fmt, depth);
    NoEntries();
    var child := ms;
    ghost var ns: seq<bytes>, ts: seq<bytes> := [], [];
    while child.Member?
      invariant MembersOk(child)
      invariant child == ms || child < ms
      invariant EntriesHold(names, ns) && EntriesHold(entries, ts)
      invariant forall e :: e in names || e in entries ==> fresh(e)
      invariant ns + NameTexts(child) == NameTexts(ms)
      invariant ts + ValueTexts(child, depth, fmt) == ValueTexts(ms, depth, fmt)
      invariant len + MembersLength(child, depth, fmt) == 7 + Flag(fmt, depth) + MembersLength(ms, depth, fmt)
      decreases child
    {
      ghost var n, t := Quoted(child.name), Print(child.value, depth, fmt);
      MembersUnfold(child, depth, fmt);
      var str := PrintString(child.name);
      var ret := PrintValue(child.value, depth, fmt);
      var j := TextLength(str, n);
      var k := TextLength(ret, t);
      OneMoreEntry(names, ns, str, n);
      OneMoreEntry(entries, ts, ret, t);
      ConcatAssoc(ns, [n], NameTexts(child.rest));
      ConcatAssoc(ts, [t], ValueTexts(child.rest, depth, fmt));
      names, entries, len := names + [str], entries + [ret], len + k + j + 2 + Flag(fmt, 2 + depth);
      ns, ts := ns + [n], ts + [t];
      child := child.rest;
    }
    MembersUnfold(child, depth, fmt);
    assert ns + [] == ns && ts + [] == ts;
  }

  /** The second loop. */
  method WritePairs(out: array<byte>, from: nat, names: seq<array<byte>>, entries: seq<array<byte>>,
                    ghost ns: seq<bytes>, ghost ts: seq<bytes>, depth: nat, fmt: bool) returns (at: nat)
    requires EntriesHold(names, ns) && EntriesHold(entries, ts) && |ns| == |ts|
    requires out !in names && out !in entries
    requires from + |JoinMembers(ns, ts, depth, fmt)| < out.Length
    modifies out
    ensures at == from + |JoinMembers(ns, ts, depth, fmt)|
    ensures out[..at] == old(out[..from]) + JoinMembers(ns, ts, depth, fmt)
  {
    at := from;
    for i := 0 to |entries|
      invariant EntriesHold(names, ns) && EntriesHold(entries, ts)
      invariant at + |JoinMembers(ns[i..], ts[i..], depth, fmt)| == from + |JoinMembers(ns, ts, depth, fmt)|
      invariant out[..at] + JoinMembers(ns[i..], ts[i..], depth, fmt) == old(out[..from]) + JoinMembers(ns, ts, depth, fmt)
    {
      at := WritePair(out, at, names[i], entries[i], ns[i..], ts[i..], depth, fmt, i == |entries| - 1);
      assert ns[i..][1..] == ns[i + 1..] && ts[i..][1..] == ts[i + 1..];
    }
  }

  method WritePair(out: array<byte>, from: nat, name: array<byte>, entry: array<byte>,
                   ghost ns: seq<bytes>, ghost ts: seq<bytes>, depth: nat, fmt: bool, last: bool) returns (at: nat)
    requires ns != [] && |ns| == |ts| && last == (|ns| == 1) && out != name && out != entry
    requires CString(name, ns[0]) && NonZero(ns[0]) && CString(entry, ts[0]) && NonZero(ts[0])
    requires from + |JoinMembers(ns, ts, depth, fmt)| < out.Length
    modifies out
    ensures at + |JoinMembers(ns[1..], ts[1..], depth, fmt)| == from + |JoinMembers(ns, ts, depth, fmt)|
    ensures out[..at] + JoinMembers(ns[1..], ts[1..], depth, fmt) == old(out[..from]) + JoinMembers(ns, ts, depth, fmt)
  {
    ghost var rest := JoinMembers(ns[1..], ts[1..], depth, fmt);
    assert JoinMembers(ns, ts, depth, fmt)
        == When(fmt, Tabs(depth)) + ns[0] + [COLON] + When(fmt, [TAB]) + ts[0] + MemberTail(last, fmt) + rest;
    hide JoinMembers, Tabs, When, MemberTail, NonZero;
    var j := TextLength(name, ns[0]);
    var k := TextLength(entry, ts[0]);
    at := EmitIndent(out, from, fmt, depth);
    at := EmitAll(out, at, name[..j]);
    at := Emit(out, at, COLON);
    at := EmitWhen(out, at, fmt, TAB);
    at := EmitAll(out, at, entry[..k]);
    at := EmitTail(out, at, last, fmt);
    Regroup(old(out[..from]), When(fmt, Tabs(depth)), ns[0], [COLON], When(fmt, [TAB]), ts[0], MemberTail(last, fmt), rest);
  }

  lemma {:induction false} Regroup(o: bytes, a: bytes, b: bytes, c: bytes, d: bytes, e: bytes, f: bytes, g: bytes)
    ensures o + a + b + c + d + e + f + g == o + (a + b + c + d + e + f + g)
  {
    ConcatAssoc(o, a, b);
    ConcatAssoc(o, a + b, c);
    ConcatAssoc(o, a + b + c, d);
    ConcatAssoc(o, a + b + c + d, e);
    ConcatAssoc(o, a + b + c + d + e, f);
    ConcatAssoc(o, a + b + c + d + e + f, g);
  }
}
