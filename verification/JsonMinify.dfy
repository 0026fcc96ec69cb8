/** The minifier: what it makes of a text, and that it turns the formatted print of a tree into
    the unformatted one. */
module JsonMinify {
  import opened Bytes
  import opened JsonText
  import opened JsonParse
  import opened JsonRoundTrip

  predicate IsBlank(c: byte) { c == 32 || c == 9 || c == 13 || c == 10 }

  const SLASH: byte := 47
  const STAR: byte := 42

  /** End of a line comment: the newline, or the end of the text. */
  function LineEnd(s: bytes, i: nat): (r: nat)
    requires i <= |s|
    ensures i <= r <= |s|
    decreases |s| - i
  {
    if i < |s| && s[i] != 0 && s[i] != NEWLINE then LineEnd(s, i + 1) else i
  }

  /** Position of the star-slash that ends a block comment, or the end of the text. */
  function BlockEnd(s: bytes, i: nat): (r: nat)
    requires i <= |s|
    ensures i <= r <= |s|
    decreases |s| - i
  {
    if i < |s| && s[i] != 0 && !(s[i] == STAR && At(s, i + 1) == SLASH) then BlockEnd(s, i + 1) else i
  }

  /** Position of the quote that closes a string literal; nothing if the text ends before. */
  function StringEnd(s: bytes, i: nat): (r: Option<nat>)
    requires i <= |s|
    ensures r.Some? ==> i <= r.value < |s|
    decreases |s| - i
  {
    if At(s, i) == 0 then None
    else if s[i] == QUOTE then Some(i)
    else if s[i] == BACKSLASH then
      if At(s, i + 1) == 0 then None else StringEnd(s, i + 2)
    else StringEnd(s, i + 1)
  }

  function Prepend(t: bytes, r: Option<bytes>): Option<bytes> {
    match r
    case None => None
    case Some(b) => Some(t + b)
  }

  /** The minified rest of the text from position `i`. Nothing where the original runs past the
      end of the text: an unterminated string or block comment. */
  function Minified(s: bytes, i: nat): (r: Option<bytes>)
    requires i <= |s|
    decreases |s| - i
  {
    if At(s, i) == 0 then Some([])
    else if IsBlank(s[i]) then Minified(s, i + 1)
    else if s[i] == SLASH && At(s, i + 1) == SLASH then Minified(s, LineEnd(s, i + 1))
    else if s[i] == SLASH && At(s, i + 1) == STAR then
      var j := BlockEnd(s, i + 1);
      if j + 2 > |s| then None else Minified(s, j + 2)
    else if s[i] == QUOTE then
      match StringEnd(s, i + 1)
      case None => None
      case Some(e) => Prepend(s[i..e + 1], Minified(s, e + 1))
    else Prepend([s[i]], Minified(s, i + 1))
  }

  // ------------------------------------------------------------ pieces of a print

  lemma {:induction false} PrependTwice(a: bytes, b: bytes, r: Option<bytes>)
    ensures Prepend(a, Prepend(b, r)) == Prepend(a + b, r)
  {
    if r.Some? { ConcatAssoc(a, b, r.value); }
  }

  lemma {:induction false} PrependNothing(r: Option<bytes>)
    ensures Prepend([], r) == r
  {
    if r.Some? { assert [] + r.value == r.value; }
  }

  predicate AllBlank(t: bytes) { forall i :: 0 <= i < |t| ==> IsBlank(t[i]) }

  predicate Plain(c: byte) { c != 0 && !IsBlank(c) && c != SLASH && c != QUOTE }

  predicate AllPlain(t: bytes) { forall i :: 0 <= i < |t| ==> Plain(t[i]) }

  /** Blanks disappear. */
  lemma {:induction false} BlankGoes(s: bytes, i: nat, t: bytes, k: nat)
    requires HasAt(s, i, t) && AllBlank(t) && k <= |t|
    ensures Minified(s, i + k) == Minified(s, i + |t|)
    decreases |t| - k
  {
    if k < |t| {
      HasAtByte(s, i, t, k);
      BlankGoes(s, i, t, k + 1);
    }
  }

  /** Ordinary characters stay. */
  lemma {:induction false} PlainStays(s: bytes, i: nat, t: bytes)
    requires HasAt(s, i, t) && AllPlain(t)
    ensures Minified(s, i) == Prepend(t, Minified(s, i + |t|))
    decreases |t|
  {
    if t == [] {
      PrependNothing(Minified(s, i));
    } else {
      HasAtByte(s, i, t, 0);
      assert t == [t[0]] + t[1..];
      HasAtConcat(s, i, [t[0]], t[1..]);
      assert Plain(t[0]);
      PlainStays(s, i + 1, t[1..]);
      PrependTwice([t[0]], t[1..], Minified(s, i + |t|));
    }
  }

  lemma {:induction false} StringEndEscape(s: bytes, i: nat, c: byte)
    requires HasAt(s, i, Escape(c)) && c != 0
    ensures StringEnd(s, i) == StringEnd(s, i + |Escape(c)|)
  {
    HasAtBytes(s, i, Escape(c));
    assert s[i + 0] == Escape(c)[0];
    if |Escape(c)| > 1 { assert s[i + 1] == Escape(c)[1]; }
    if |Escape(c)| == 6 {
      assert s[i + 2] == 48 && s[i + 3] == 48 && s[i + 4] == Escape(c)[4] && s[i + 5] == Escape(c)[5];
      assert StringEnd(s, i + 4) == StringEnd(s, i + 5) == StringEnd(s, i + 6);
      assert StringEnd(s, i + 2) == StringEnd(s, i + 3) == StringEnd(s, i + 4);
    }
  }

  lemma {:induction false} StringEndEscaped(s: bytes, i: nat, t: bytes)
    requires HasAt(s, i, EscapeAll(t) + [QUOTE]) && NonZero(t)
    ensures StringEnd(s, i) == Some(i + |EscapeAll(t)|)
    decreases |t|
  {
    hide Escape;
    if t == [] {
      HasAtByte(s, i, [] + [QUOTE], 0);
    } else {
      EscapeParts(s, i, t);
      StringEndEscape(s, i, t[0]);
      StringEndEscaped(s, i + |Escape(t[0])|, t[1..]);
    }
  }

  /** String literals stay. */
  lemma {:induction false} QuotedStays(s: bytes, i: nat, t: bytes)
    requires HasAt(s, i, Quoted(t)) && NonZero(t)
    ensures Minified(s, i) == Prepend(Quoted(t), Minified(s, i + |Quoted(t)|))
  {
    hide EscapeAll, StringEnd;
    ConcatAssoc([QUOTE], EscapeAll(t), [QUOTE]);
    HasAtConcat(s, i, [QUOTE], EscapeAll(t) + [QUOTE]);
    HasAtByte(s, i, [QUOTE], 0);
    StringEndEscaped(s, i + 1, t);
    assert s[i..i + |Quoted(t)|] == Quoted(t);
  }

  lemma {:induction false} DecimalPlain(n: nat)
    ensures AllPlain(Decimal(n))
    decreases n
  {
    if n >= 10 { DecimalPlain(n / 10); }
  }

  lemma {:induction false} IntPlain(n: int)
    ensures AllPlain(IntText(n))
  {
    DecimalPlain(if n < 0 then -n else n);
  }

  lemma {:induction false} BlankPieces(depth: nat, fmt: bool)
    ensures AllBlank(When(fmt, [TAB])) && AllBlank(When(fmt, [SPACE])) && AllBlank(When(fmt, [NEWLINE]))
    ensures AllBlank(When(fmt, Tabs(depth))) && AllBlank(When(fmt, [NEWLINE] + Tabs(depth)))
  {
  }

  lemma {:induction false} ScalarStays(s: bytes, i: nat, v: Json, depth: nat)
    requires Ok(v) && !v.Array? && !v.Object? && HasAt(s, i, Print(v, depth, true))
    ensures Minified(s, i) == Prepend(Print(v, depth, false), Minified(s, i + |Print(v, depth, true)|))
  {
    hide Minified, Quoted, IntText;
    match v
    case Number(x) => IntPlain(x.Floor); PlainStays(s, i, IntText(x.Floor));
    case String(t) => QuotedStays(s, i, t);
    case Null => PlainStays(s, i, NULL_TEXT);
    case False => PlainStays(s, i, FALSE_TEXT);
    case True => PlainStays(s, i, TRUE_TEXT);
  }

  // ------------------------------------------------------------ the theorem

  lemma {:induction false} ByteStays(s: bytes, i: nat, c: byte)
    requires i < |s| && s[i] == c && Plain(c)
    ensures Minified(s, i) == Prepend([c], Minified(s, i + 1))
  {
  }

  /** Minifying the formatted print of a value, wherever it stands, leaves its unformatted print. */
  lemma {:induction false} PrintStays(s: bytes, i: nat, v: Json, depth: nat)
    requires Ok(v) && HasAt(s, i, Print(v, depth, true))
    ensures Minified(s, i) == Prepend(Print(v, depth, false), Minified(s, i + |Print(v, depth, true)|))
    decreases v, 1
  {
    if v.Array? {
      ArrayStays(s, i, v.items, depth);
    } else if v.Object? {
      ObjectStays(s, i, v.members, depth);
    } else {
      ScalarStays(s, i, v, depth);
    }
  }

  lemma {:induction false} ArrayStays(s: bytes, i: nat, items: Items, depth: nat)
    requires ItemsOk(items) && HasAt(s, i, Print(Array(items), depth, true))
    ensures Minified(s, i) == Prepend(Print(Array(items), depth, false), Minified(s, i + |Print(Array(items), depth, true)|))
    decreases items, 2
  {
    hide PrintItems, Minified, HasAt, Prepend;
    var inner, min := PrintItems(items, depth + 1, true), PrintItems(items, depth + 1, false);
    ArrayParts(s, i, items, depth, true);
    var e := i + 1 + |inner|;
    ByteStays(s, i, 91);
    ItemsStay(s, i + 1, items, depth + 1);
    ByteStays(s, e, 93);
    PrependTwice(min, [93], Minified(s, e + 1));
    PrependTwice([91], min + [93], Minified(s, e + 1));
    ConcatAssoc([91], min, [93]);
  }

  lemma {:induction false} ItemsStay(s: bytes, i: nat, items: Items, depth: nat)
    requires ItemsOk(items) && HasAt(s, i, PrintItems(items, depth, true))
    ensures Minified(s, i) == Prepend(PrintItems(items, depth, false), Minified(s, i + |PrintItems(items, depth, true)|))
    decreases items, 1
  {
    if items.NoItem? {
      PrependNothing(Minified(s, i));
    } else {
      OneItemStays(s, i, items, depth);
    }
  }

  lemma {:induction false} OneItemStays(s: bytes, i: nat, items: Items, depth: nat)
    requires items.Item? && ItemsOk(items) && HasAt(s, i, PrintItems(items, depth, true))
    ensures Minified(s, i) == Prepend(PrintItems(items, depth, false), Minified(s, i + |PrintItems(items, depth, true)|))
    decreases items, 0
  {
    hide Print, PrintItems, Minified, HasAt, Prepend;
    var a, rest := Print(items.head, depth, false), PrintItems(items.tail, depth, false);
    var e := i + |Print(items.head, depth, true)|;
    ItemsText(items, depth);
    ItemParts(s, i, items, depth, true);
    PrintStays(s, i, items.head, depth);
    if items.tail.Item? {
      ByteStays(s, e, COMMA);
      BlankPieces(0, true);
      BlankGoes(s, e + 1, When(true, [SPACE]), 0);
      ItemsStay(s, e + 1 + |When(true, [SPACE])|, items.tail, depth);
      HasAtInside(s, i, PrintItems(items, depth, true));
      var r := Minified(s, i + |PrintItems(items, depth, true)|);
      PrependTwice([COMMA], rest, r);
      PrependTwice(a, [COMMA] + rest, r);
      ConcatAssoc(a, [COMMA], rest);
    }
  }

  /** The unformatted text of an array's children, piece by piece. */
  lemma {:induction false} ItemsText(items: Items, depth: nat)
    requires items.Item?
    ensures items.tail.NoItem? ==> PrintItems(items, depth, false) == Print(items.head, depth, false)
    ensures items.tail.Item? ==>
              PrintItems(items, depth, false) == Print(items.head, depth, false) + [COMMA] + PrintItems(items.tail, depth, false)
  {
    hide Print;
    assert [COMMA] + [] == [COMMA];
  }

  lemma {:induction false} ObjectStays(s: bytes, i: nat, ms: Members, depth: nat)
    requires MembersOk(ms) && HasAt(s, i, Print(Object(ms), depth, true))
    ensures Minified(s, i) == Prepend(Print(Object(ms), depth, false), Minified(s, i + |Print(Object(ms), depth, true)|))
    decreases ms, 2
  {
    hide PrintMembers, Minified, HasAt, Prepend, Tabs, When;
    ObjectByte(s, i, ms, depth, true);
    ByteStays(s, i, 123);
    ObjectText(ms, depth);
    if ms.NoMember? {
      EmptyObjectStays(s, i, depth);
      var e := i + |Print(Object(ms), depth, true)|;
      HasAtInside(s, i, Print(Object(ms), depth, true));
      PrependTwice([123], [125], Minified(s, e));
    } else {
      ObjectParts(s, i, ms, depth, true);
      var j := i + 1 + |When(true, [NEWLINE])|;
      var min, e := PrintMembers(ms, depth + 1, false), j + |PrintMembers(ms, depth + 1, true)|;
      var c := e + |When(true, Tabs(depth))|;
      BlankPieces(depth, true);
      BlankGoes(s, i + 1, When(true, [NEWLINE]), 0);
      MembersStay(s, j, ms, depth + 1);
      BlankGoes(s, e, When(true, Tabs(depth)), 0);
      ByteStays(s, c, 125);
      PrependTwice(min, [125], Minified(s, c + 1));
      PrependTwice([123], min + [125], Minified(s, c + 1));
      ConcatAssoc([123], min, [125]);
    }
  }

  lemma {:induction false} ObjectText(ms: Members, depth: nat)
    ensures ms.NoMember? ==> Print(Object(ms), depth, false) == [123] + [125]
    ensures ms.Member? ==> Print(Object(ms), depth, false) == [123] + PrintMembers(ms, depth + 1, false) + [125]
  {
    hide PrintMembers;
    assert [123] + [] == [123];
    assert [123] + PrintMembers(ms, depth + 1, false) + [] == [123] + PrintMembers(ms, depth + 1, false);
  }

  lemma {:induction false} EmptyObjectStays(s: bytes, i: nat, depth: nat)
    requires HasAt(s, i, Print(Object(NoMember), depth, true))
    ensures Minified(s, i + 1) == Prepend([125], Minified(s, i + |Print(Object(NoMember), depth, true)|))
  {
    var n := if depth > 0 then depth - 1 else 0;
    var gap := When(true, [NEWLINE] + Tabs(n));
    BlankPieces(n, true);
    hide When, Tabs, Minified, Prepend;
    HasAtConcat(s, i, [123] + gap, [125]);
    HasAtConcat(s, i, [123], gap);
    HasAtByte(s, i + 1 + |gap|, [125], 0);
    BlankGoes(s, i + 1, gap, 0);
    ByteStays(s, i + 1 + |gap|, 125);
  }

  lemma {:induction false} MembersStay(s: bytes, i: nat, ms: Members, depth: nat)
    requires MembersOk(ms) && HasAt(s, i, PrintMembers(ms, depth, true))
    ensures Minified(s, i) == Prepend(PrintMembers(ms, depth, false), Minified(s, i + |PrintMembers(ms, depth, true)|))
    decreases ms, 1
  {
    if ms.NoMember? {
      PrependNothing(Minified(s, i));
    } else {
      OneMemberStays(s, i, ms, depth);
    }
  }

  lemma {:induction false} HeadStays(s: bytes, i: nat, name: bytes, depth: nat)
    requires NonZero(name) && HasAt(s, i, MemberHead(name, depth, true))
    ensures Minified(s, i) == Prepend(MemberHead(name, depth, false), Minified(s, i + |MemberHead(name, depth, true)|))
  {
    HeadText(name, depth);
    hide MemberHead, When, Tabs, Quoted, Minified, Prepend, HasAt, NonZero;
    HeadParts(s, i, name, depth, true);
    BlankPieces(depth, true);
    var q := i + |When(true, Tabs(depth))|;
    var c := q + |Quoted(name)|;
    BlankGoes(s, i, When(true, Tabs(depth)), 0);
    QuotedStays(s, q, name);
    ByteStays(s, c, COLON);
    BlankGoes(s, c + 1, When(true, [TAB]), 0);
    PrependTwice(Quoted(name), [COLON], Minified(s, c + 1));
  }

  lemma {:induction false} HeadText(name: bytes, depth: nat)
    ensures MemberHead(name, depth, false) == Quoted(name) + [COLON]
  {
    hide Quoted;
    assert [] + Quoted(name) == Quoted(name);
  }

  lemma {:induction false} TailStays(s: bytes, e: nat, last: bool)
    requires HasAt(s, e, MemberTail(last, true))
    ensures Minified(s, e) == Prepend(MemberTail(last, false), Minified(s, e + |MemberTail(last, true)|))
  {
    TailParts(s, e, last, true);
    BlankPieces(0, true);
    HasAtInside(s, e, MemberTail(last, true));
    assert [COMMA] + [] == [COMMA];
    hide Minified, HasAt;
    if last {
      BlankGoes(s, e, When(true, [NEWLINE]), 0);
      PrependNothing(Minified(s, e));
    } else {
      ByteStays(s, e, COMMA);
      BlankGoes(s, e + 1, When(true, [NEWLINE]), 0);
    }
  }

  lemma {:induction false} OneMemberStays(s: bytes, i: nat, ms: Members, depth: nat)
    requires ms.Member? && MembersOk(ms) && HasAt(s, i, PrintMembers(ms, depth, true))
    ensures Minified(s, i) == Prepend(PrintMembers(ms, depth, false), Minified(s, i + |PrintMembers(ms, depth, true)|))
    decreases ms, 0
  {
    hide Print, PrintMembers, MemberHead, MemberTail, Minified, HasAt, Prepend;
    MembersText(ms, depth);
    MemberParts(s, i, ms, depth, true);
    var last := ms.rest.NoMember?;
    var v := i + |MemberHead(ms.name, depth, true)|;
    var e := v + |Print(ms.value, depth, true)|;
    var f := e + |MemberTail(last, true)|;
    HasAtInside(s, i, PrintMembers(ms, depth, true));
    HeadStays(s, i, ms.name, depth);
    PrintStays(s, v, ms.value, depth);
    TailStays(s, e, last);
    MembersStay(s, f, ms.rest, depth);
    FourPieces(MemberHead(ms.name, depth, false), Print(ms.value, depth, false), MemberTail(last, false), PrintMembers(ms.rest, depth, false),
               Minified(s, f + |PrintMembers(ms.rest, depth, true)|));
  }

  lemma {:induction false} FourPieces(a: bytes, b: bytes, c: bytes, d: bytes, r: Option<bytes>)
    ensures Prepend(a, Prepend(b, Prepend(c, Prepend(d, r)))) == Prepend(a + b + c + d, r)
  {
    hide Prepend;
    PrependTwice(a, b, Prepend(c, Prepend(d, r)));
    PrependTwice(a + b, c, Prepend(d, r));
    PrependTwice(a + b + c, d, r);
  }

  lemma {:induction false} MembersText(ms: Members, depth: nat)
    requires ms.Member?
    ensures PrintMembers(ms, depth, false) ==
            MemberHead(ms.name, depth, false) + Print(ms.value, depth, false) + MemberTail(ms.rest.NoMember?, false) + PrintMembers(ms.rest, depth, false)
  {
  }

  /** Minifying the formatted print of a tree gives exactly its unformatted print. */
  lemma {:induction false} MinifyFormatted(v: Json)
    requires Ok(v)
    ensures Minified(Print(v, 0, true), 0) == Some(Print(v, 0, false))
  {
    var s := Print(v, 0, true);
    assert s[0..|s|] == s;
    hide Print;
    PrintStays(s, 0, v, 0);
    assert Print(v, 0, false) + [] == Print(v, 0, false);
  }

  // ------------------------------------------------------------ in place

  /** The unread part of the buffer is still the original text and its terminator. */
  ghost predicate Unread(a: array<byte>, json: nat, text: bytes)
    reads a
  {
    && json <= |text| < a.Length
    && a[json..|text|] == text[json..]
    && a[|text|] == 0
  }

  lemma {:induction false} UnreadByte(a: array<byte>, json: nat, text: bytes, k: nat)
    requires Unread(a, json, text) && json <= k <= |text|
    ensures a[k] == At(text, k)
  {
    if k < |text| { assert a[json..|text|][k - json] == text[json..][k - json]; }
  }

  method SkipLine(a: array<byte>, json: nat, ghost text: bytes) returns (j: nat)
    requires Unread(a, json, text)
    ensures j == LineEnd(text, json)
  {
    j := json;
    UnreadByte(a, json, text, j);
    while a[j] != 0 && a[j] != NEWLINE
      invariant json <= j <= |text| && a[j] == At(text, j)
      invariant LineEnd(text, json) == LineEnd(text, j)
      decreases |text| - j
    {
      j := j + 1;
      UnreadByte(a, json, text, j);
    }
  }

  method SkipBlock(a: array<byte>, json: nat, ghost text: bytes) returns (j: nat)
    requires Unread(a, json, text)
    ensures j == BlockEnd(text, json)
  {
    j := json;
    UnreadByte(a, json, text, j);
    while a[j] != 0
      invariant json <= j <= |text| && a[j] == At(text, j)
      invariant BlockEnd(text, json) == BlockEnd(text, j)
      decreases |text| - j
    {
      UnreadByte(a, json, text, j + 1);
      if a[j] == STAR && a[j + 1] == SLASH {
        return;
      }
      j := j + 1;
    }
  }

  /** Copy the byte at the read cursor to the write cursor. */
  method CopyByte(a: array<byte>, into: nat, json: nat, ghost text: bytes)
    requires Unread(a, json, text) && into <= json < |text|
    modifies a
    ensures Unread(a, json + 1, text)
    ensures a[..into + 1] == old(a[..into]) + [text[json]]
  {
    UnreadByte(a, json, text, json);
    ghost var before := a[json..|text|];
    a[into] := a[json];
    assert a[json + 1..|text|] == before[1..];
  }

  lemma {:induction false} StringStep(s: bytes, j: nat, e: nat)
    requires j <= |s| && StringEnd(s, j) == Some(e)
    ensures j < |s| && s[j] != 0
    ensures s[j] == QUOTE ==> e == j
    ensures s[j] == BACKSLASH ==> j + 1 < |s| && StringEnd(s, j + 2) == Some(e)
    ensures s[j] != QUOTE && s[j] != BACKSLASH ==> StringEnd(s, j + 1) == Some(e)
  {
  }

  /** The write cursor stands behind `head` and what was read from `json` on. */
  ghost predicate Copied(a: array<byte>, i: nat, head: bytes, text: bytes, json: nat, j: nat)
    reads a
  {
    i <= a.Length && json <= j <= |text| && a[..i] == head + text[json..j]
  }

  lemma {:induction false} NothingCopied(a: array<byte>, i: nat, text: bytes, json: nat)
    requires i <= a.Length && json <= |text|
    ensures Copied(a, i, a[..i], text, json, json)
  {
  }

  /** Copy one byte more. */
  method CopyOn(a: array<byte>, i: nat, j: nat, ghost head: bytes, ghost text: bytes, ghost json: nat)
    requires Unread(a, j, text) && i <= j < |text| && Copied(a, i, head, text, json, j)
    modifies a
    ensures Unread(a, j + 1, text) && Copied(a, i + 1, head, text, json, j + 1)
  {
    UnreadBounds(a, j, text);
    hide Unread;
    CopyByte(a, i, j, text);
    OneByte(text, j);
    Longer(head, text, json, j, j + 1);
  }

  lemma {:induction false} Longer(head: bytes, s: bytes, i: nat, j: nat, k: nat)
    requires i <= j <= k <= |s|
    ensures head + s[i..j] + s[j..k] == head + s[i..k]
  {
    assert s[i..j] + s[j..k] == s[i..k];
  }

  /** One character of a string literal, with its backslash if it has one. */
  method CopyChar(a: array<byte>, into: nat, from: nat, ghost head: bytes, ghost text: bytes, ghost json: nat, ghost e: nat)
    returns (i: nat, j: nat)
    requires Unread(a, from, text) && into <= from < |text| && StringEnd(text, from) == Some(e)
    requires text[from] != QUOTE && Copied(a, into, head, text, json, from)
    modifies a
    ensures from < j < |text| < a.Length && i <= j && Unread(a, j, text) && a[j] == text[j]
    ensures StringEnd(text, j) == Some(e) && Copied(a, i, head, text, json, j)
  {
    UnreadBounds(a, from, text);
    hide Unread, StringEnd, Copied;
    StringStep(text, from, e);
    UnreadByte(a, from, text, from);
    i, j := into, from;
    if a[j] == BACKSLASH {
      CopyOn(a, i, j, head, text, json);
      i, j := i + 1, j + 1;
    }
    CopyOn(a, i, j, head, text, json);
    i, j := i + 1, j + 1;
    StringStep(text, j, e);
    UnreadByte(a, j, text, j);
  }

  /** The string branch: the literal is copied through its closing quote. */
  method CopyString(a: array<byte>, into: nat, json: nat, ghost text: bytes) returns (i: nat, j: nat)
    requires Unread(a, json, text) && into <= json < |text|
    requires text[json] == QUOTE && StringEnd(text, json + 1).Some?
    modifies a
    ensures j == StringEnd(text, json + 1).value + 1 && i <= j && Unread(a, j, text)
    ensures Copied(a, i, old(a[..into]), text, json, j)
  {
    hide Unread, StringEnd, Copied;
    UnreadBounds(a, json, text);
    ghost var head, e := a[..into], StringEnd(text, json + 1).value;
    NothingCopied(a, into, text, json);
    CopyOn(a, into, json, head, text, json);
    i, j := into + 1, json + 1;
    StringStep(text, j, e);
    UnreadByte(a, j, text, j);
    while a[j] != 0 && a[j] != QUOTE
      invariant json < j < |text| < a.Length && i <= j && Unread(a, j, text) && a[j] == text[j]
      invariant StringEnd(text, j) == Some(e) && Copied(a, i, head, text, json, j)
      decreases |text| - j
    {
      i, j := CopyChar(a, i, j, head, text, json, e);
    }
    StringStep(text, j, e);
    CopyOn(a, i, j, head, text, json);
    i, j := i + 1, j + 1;
  }

  lemma {:induction false} UnreadBounds(a: array<byte>, json: nat, text: bytes)
    requires Unread(a, json, text)
    ensures json <= |text| < a.Length
  {
  }

  /** The branches of the minifier, one turn each. */
  lemma {:induction false} MinifiedStep(s: bytes, i: nat)
    requires i < |s| && s[i] != 0 && Minified(s, i).Some?
    ensures IsBlank(s[i]) ==> Minified(s, i) == Minified(s, i + 1)
    ensures s[i] == SLASH && At(s, i + 1) == SLASH ==> Minified(s, i) == Minified(s, LineEnd(s, i + 1))
    ensures s[i] == SLASH && At(s, i + 1) == STAR ==>
              BlockEnd(s, i + 1) + 2 <= |s| && Minified(s, i) == Minified(s, BlockEnd(s, i + 1) + 2)
    ensures s[i] == QUOTE ==>
              var e := StringEnd(s, i + 1);
              e.Some? && Minified(s, i) == Prepend(s[i..e.value + 1], Minified(s, e.value + 1))
    ensures !IsBlank(s[i]) && s[i] != QUOTE && !(s[i] == SLASH && (At(s, i + 1) == SLASH || At(s, i + 1) == STAR)) ==>
              Minified(s, i) == Prepend([s[i]], Minified(s, i + 1))
  {
    hide LineEnd, BlockEnd, StringEnd;
  }

  lemma {:induction false} PrependSome(t: bytes, r: Option<bytes>)
    ensures Prepend(t, r).Some? <==> r.Some?
  {
  }

  lemma {:induction false} MinifiedEnd(s: bytes, i: nat, t: bytes)
    requires i <= |s| && At(s, i) == 0
    ensures Prepend(t, Minified(s, i)) == Some(t)
  {
    assert t + [] == t;
  }

  /** What holds between two turns of the minifier: `out` is the minified text of the whole. */
  ghost predicate Minifying(a: array<byte>, into: nat, json: nat, text: bytes, out: Option<bytes>)
    reads a
  {
    && into <= json && Unread(a, json, text) && a[json] == At(text, json)
    && Prepend(a[..into], Minified(text, json)) == out && out.Some?
  }

  /** Turns that only skip: blanks and comments. */
  method SkipTurn(a: array<byte>, ghost into: nat, json: nat, ghost text: bytes, ghost out: Option<bytes>) returns (j: nat)
    requires Minifying(a, into, json, text, out) && a[json] != 0
    requires IsBlank(a[json]) || (a[json] == SLASH && (At(text, json + 1) == SLASH || At(text, json + 1) == STAR))
    ensures json < j && Minifying(a, into, j, text, out)
  {
    UnreadBounds(a, json, text);
    UnreadByte(a, json, text, json);
    UnreadByte(a, json, text, json + 1);
    hide Unread, Minified, Prepend, LineEnd, BlockEnd, StringEnd;
    PrependSome(a[..into], Minified(text, json));
    MinifiedStep(text, json);
    UnreadShift(a, json, text, json + 1);
    if IsBlank(a[json]) {
      j := json + 1;
    } else if a[json + 1] == SLASH {
      j := SkipLine(a, json + 1, text);
    } else {
      j := SkipBlock(a, json + 1, text);
      j := j + 2;
    }
    UnreadShift(a, json, text, j);
    UnreadByte(a, j, text, j);
  }

  /** Turns that copy: string literals and all other characters. */
  method CopyTurn(a: array<byte>, into: nat, json: nat, ghost text: bytes, ghost out: Option<bytes>) returns (i: nat, j: nat)
    requires Minifying(a, into, json, text, out) && a[json] != 0
    requires !IsBlank(a[json]) && !(a[json] == SLASH && (At(text, json + 1) == SLASH || At(text, json + 1) == STAR))
    modifies a
    ensures json < j && Minifying(a, i, j, text, out)
  {
    UnreadBounds(a, json, text);
    UnreadByte(a, json, text, json);
    hide Unread, Minified, Prepend, StringEnd;
    ghost var head := a[..into];
    PrependSome(head, Minified(text, json));
    MinifiedStep(text, json);
    if a[json] == QUOTE {
      i, j := CopyString(a, into, json, text);
    } else {
      CopyByte(a, into, json, text);
      i, j := into + 1, json + 1;
      assert text[json..j] == [text[json]];
    }
    UnreadBounds(a, j, text);
    UnreadByte(a, j, text, j);
    PrependTwice(head, text[json..j], Minified(text, j));
  }

  /** cJSON_Minify on a terminated text that it can read to its end: the write cursor never passes
      the read cursor, and what is left is the minified text with its terminator. */
  method Minify(a: array<byte>, n: nat) returns (into: nat)
    requires n < a.Length && a[n] == 0 && Minified(a[..n], 0).Some?
    modifies a
    ensures into <= n && a[into] == 0
    ensures Some(a[..into]) == Minified(old(a[..n]), 0)
  {
    ghost var text := a[..n];
    ghost var out := Minified(text, 0);
    var json := 0;
    into := 0;
    MinifyStarts(a, text);
    hide Minifying, Minified;
    while a[json] != 0
      invariant json <= n && Minifying(a, into, json, text, out)
      decreases n - json
    {
      MinifyingBounds(a, into, json, text, out);
      if IsBlank(a[json]) || (a[json] == SLASH && (a[json + 1] == SLASH || a[json + 1] == STAR)) {
        json := SkipTurn(a, into, json, text, out);
      } else {
        into, json := CopyTurn(a, into, json, text, out);
      }
      MinifyingBounds(a, into, json, text, out);
    }
    MinifyingBounds(a, into, json, text, out);
    a[into] := 0;
  }

  lemma {:induction false} MinifyStarts(a: array<byte>, text: bytes)
    requires |text| < a.Length && a[..|text|] == text && a[|text|] == 0 && Minified(text, 0).Some?
    ensures Minifying(a, 0, 0, text, Minified(text, 0))
  {
    assert a[0..|text|] == text[0..];
    UnreadByte(a, 0, text, 0);
    assert a[..0] == [];
    hide Minified, Prepend;
    PrependNothing(Minified(text, 0));
  }

  lemma {:induction false} MinifyingBounds(a: array<byte>, into: nat, json: nat, text: bytes, out: Option<bytes>)
    requires Minifying(a, into, json, text, out)
    ensures into <= json <= |text| < a.Length && (json < |text| || a[json] == 0)
    ensures json < |text| ==> a[json + 1] == At(text, json + 1)
    ensures a[json] == 0 ==> out == Some(a[..into])
  {
    if json < |text| { UnreadByte(a, json, text, json + 1); }
    if a[json] == 0 { MinifiedEnd(text, json, a[..into]); }
  }

  lemma {:induction false} UnreadShift(a: array<byte>, json: nat, text: bytes, j: nat)
    requires Unread(a, json, text) && json <= j <= |text|
    ensures Unread(a, j, text)
  {
    assert a[j..|text|] == a[json..|text|][j - json..];
  }
}
