/** The parser as it runs: cursor loops inside recursive calls, proved to compute the functions of
    JsonParse. The text is never changed. Inputs on which the original leaves the text or its
    allocation are excluded, so that no position here needs a guard the original does not have. */
module JsonParser {
  import opened Bytes
  import opened JsonText
  import opened JsonParse
  import R = JsonRoundTrip

  method SkipBlanks(s: bytes, i: nat) returns (r: nat)
    requires i <= |s|
    ensures r == Skip(s, i)
  {
    r := i;
    while At(s, r) != 0 && At(s, r) <= 32
      invariant r <= |s| && Skip(s, r) == Skip(s, i)
      decreases |s| - r
    {
      r := r + 1;
    }
  }

  // ------------------------------------------------------------ numbers

  method ReadDigits(s: bytes, i: nat, acc: nat) returns (n: nat, j: nat)
    requires i <= |s|
    ensures (n, j) == Digits(s, i, acc)
  {
    n, j := acc, i;
    while Digit(At(s, j))
      invariant j <= |s| && Digits(s, j, n) == Digits(s, i, acc)
      decreases |s| - j
    {
      n, j := n * 10 + (s[j] - 48) as nat, j + 1;
    }
  }

  /** An optional zero, then digits. */
  method ReadWhole(s: bytes, i: nat) returns (n: nat, end: nat)
    requires i <= |s|
    ensures (n, end) == Whole(s, i)
  {
    n, end := 0, i;
    if At(s, end) == 48 {
      end := end + 1;
    }
    if 49 <= At(s, end) <= 57 {
      n, end := ReadDigits(s, end, 0);
    }
  }

  method ReadFraction(s: bytes, i: nat, n: nat) returns (m: nat, scale: int, end: nat)
    requires i <= |s|
    ensures (m, end) == Fraction(s, i, n) && scale == if end > i then i + 1 - end else 0
  {
    m, scale, end := n, 0, i;
    if At(s, end) == 46 && Digit(At(s, end + 1)) {
      end := end + 1;
      var from := end;
      m, end := ReadDigits(s, end, n);
      scale := from - end;
    }
  }

  method ReadExponent(s: bytes, i: nat) returns (e: int, end: nat)
    requires i <= |s|
    ensures (e, end) == Exponent(s, i)
  {
    e, end := 0, i;
    if At(s, end) == 101 || At(s, end) == 69 {
      var sign: int := 1;
      end := end + 1;
      if At(s, end) == 43 {
        end := end + 1;
      } else if At(s, end) == 45 {
        sign, end := -1, end + 1;
      }
      var subscale;
      subscale, end := ReadDigits(s, end, 0);
      e := subscale * sign;
    }
  }

  method ReadNumber(s: bytes, i: nat) returns (x: real, end: nat)
    requires i <= |s|
    ensures x == ParseNumber(s, i).0 && end == ParseNumber(s, i).1
  {
    hide Whole, Fraction, Exponent, Pow10;
    var sign: int := 1;
    var from := i;
    if At(s, i) == 45 {
      sign, from := -1, i + 1;
    }
    var n, j := ReadWhole(s, from);
    var m, scale, k := ReadFraction(s, j, n);
    var e, l := ReadExponent(s, k);
    x, end := (sign * m) as real * Pow10(scale + e), l;
    NumberIs(s, i, n, j, m, k, e, l);
    assert (sign * m) as real == if sign == -1 then -(m as real) else m as real;
  }

  // ------------------------------------------------------------ strings

  /** The first pass. */
  method CountPass(s: bytes, i: nat) returns (len: nat)
    requires i <= |s| && CountChars(s, i).Done?
    ensures len == CountChars(s, i).value
  {
    len := 0;
    var p := i;
    while At(s, p) != QUOTE && At(s, p) != 0
      invariant p <= |s| && CountChars(s, p).Done? && CountChars(s, p).value + len == CountChars(s, i).value
      decreases |s| - p
    {
      len := len + 1;
      p := if s[p] == BACKSLASH then p + 2 else p + 1;
    }
  }

  /** The UTF-8 form of a code point, written from its last byte to its first. */
  method EmitUtf8(a: array<byte>, at: nat, u: nat) returns (next: nat)
    requires u <= 0x10FFFF && at + |Utf8(u)| <= a.Length
    modifies a
    ensures next == at + |Utf8(u)| && a[..next] == old(a[..at]) + Utf8(u)
  {
    hide Utf8, Shifted, Utf8Length;
    ghost var text := Utf8(u);
    var len := Utf8Length(u);
    Utf8Bytes(u);
    var uc, q := u, at + len;
    NotShifted(u);
    while q > at + 1
      invariant at < q <= at + len && uc == Shifted(u, at + len - q)
      invariant a[..at] == old(a[..at])
      invariant forall k :: q - at <= k < len ==> a[at + k] == text[k]
    {
      Utf8Byte(u, q - 1 - at);
      ShiftedOnce(u, at + len - q);
      q := q - 1;
      a[q] := 0x80 + uc % 64;
      uc := uc / 64;
    }
    q := q - 1;
    a[q] := uc + FirstByteMark(len);
    next := q + len;
    assert a[at..next] == text;
    assert a[..next] == a[..at] + a[at..next];
  }

  function Utf8Length(u: nat): (len: nat)
    ensures 1 <= len <= 4
  {
    if u < 0x80 then 1 else if u < 0x800 then 2 else if u < 0x10000 then 3 else 4
  }

  function FirstByteMark(len: nat): nat { if len == 2 then 0xC0 else if len == 3 then 0xE0 else if len == 4 then 0xF0 else 0 }

  function Shifted(u: nat, k: nat): nat { if k == 0 then u else Shifted(u, k - 1) / 64 }

  lemma {:induction false} NotShifted(u: nat)
    ensures Shifted(u, 0) == u
  {
  }

  lemma {:induction false} ShiftedOnce(u: nat, k: nat)
    ensures Shifted(u, k + 1) == Shifted(u, k) / 64
  {
  }

  /** The first byte of the UTF-8 form. */
  lemma {:induction false} Utf8Bytes(u: nat)
    requires u <= 0x10FFFF
    ensures var len := Utf8Length(u);
            && |Utf8(u)| == len
            && Utf8(u)[0] == Shifted(u, len - 1) + FirstByteMark(len)
  {
    assert Shifted(u, 0) == u && Shifted(u, 1) == u / 64 && Shifted(u, 2) == u / 4096 && Shifted(u, 3) == u / 262144;
  }

  /** The others, each from the code point shifted by six bits once more. */
  lemma {:induction false} Utf8Byte(u: nat, k: nat)
    requires u <= 0x10FFFF && 1 <= k < Utf8Length(u)
    ensures |Utf8(u)| == Utf8Length(u) && Utf8(u)[k] == 0x80 + Shifted(u, Utf8Length(u) - 1 - k) % 64
  {
    assert Shifted(u, 0) == u && Shifted(u, 1) == u / 64 && Shifted(u, 2) == u / 4096;
  }

  /** One escape of the second pass. */
  method Unescape(s: bytes, i: nat, a: array<byte>, at: nat) returns (next: nat, p: nat)
    requires at + |UnescapeAt(s, i).0| <= a.Length
    modifies a
    ensures p == UnescapeAt(s, i).1 && next == at + |UnescapeAt(s, i).0|
    ensures a[..next] == old(a[..at]) + UnescapeAt(s, i).0
  {
    hide Hex4, Combine, Utf8;
    ghost var below := a[..at];
    assert below + [] == below;
    var c := At(s, i + 1);
    next, p := at, i + 2;
    if c != 117 {
      a[at], next := ShortEscape(c), at + 1;
      assert a[..next] == below + [ShortEscape(c)];
      return;
    }
    var uc := Hex4(s, i + 2);
    Hex4Bound(s, i + 2);
    p := i + 6;
    if LowSurrogate(uc) || uc == 0 {
      return;
    }
    if HighSurrogate(uc) {
      if At(s, p) != BACKSLASH || At(s, p + 1) != 117 {
        return;
      }
      var uc2 := Hex4(s, p + 2);
      p := p + 6;
      if !LowSurrogate(uc2) {
        return;
      }
      CombineRange(uc, uc2);
      uc := Combine(uc, uc2);
    }
    next := EmitUtf8(a, at, uc);
  }

  /** Both passes: count, allocate, then unescape into the allocation. */
  method ReadString(s: bytes, i: nat) returns (r: Parsed<bytes>)
    requires i <= |s| && !ParseString(s, i).Overrun?
    ensures r == ParseString(s, i)
  {
    if At(s, i) != QUOTE {
      return Fail;
    }
    hide CountChars, ReadChars;
    var len := CountPass(s, i + 1);
    var out := new byte[len + 1];
    var p2, p := UnescapePass(s, i + 1, out);
    out[p2] := 0;
    r := Done(out[..p2], if At(s, p) == QUOTE then p + 1 else p);
  }

  /** The second pass stays inside the allocation. */
  method UnescapePass(s: bytes, i: nat, a: array<byte>) returns (p2: nat, p: nat)
    requires i <= |s| && ReadChars(s, i).Done? && |ReadChars(s, i).value| < a.Length
    modifies a
    ensures p == ReadChars(s, i).end && p2 == |ReadChars(s, i).value| && a[..p2] == ReadChars(s, i).value
  {
    hide ReadChars, UnescapeAt;
    p, p2 := i, 0;
    while At(s, p) != QUOTE && At(s, p) != 0
      invariant p <= |s| && p2 <= a.Length && ReadChars(s, p).Done?
      invariant a[..p2] + ReadChars(s, p).value == ReadChars(s, i).value
      invariant ReadChars(s, p).end == ReadChars(s, i).end
      decreases |s| - p
    {
      ghost var below := a[..p2];
      ghost var (out, next) := if s[p] == BACKSLASH then UnescapeAt(s, p) else ([s[p]], p + 1);
      ReadOne(s, p, out, next);
      ConcatAssoc(below, out, ReadChars(s, next).value);
      if s[p] != BACKSLASH {
        a[p2] := s[p];
        p2, p := p2 + 1, p + 1;
        assert a[..p2] == below + out;
      } else {
        p2, p := Unescape(s, p, a, p2);
      }
    }
    ReadEnd(s, p);
    assert a[..p2] + [] == a[..p2];
  }

  lemma {:induction false} ReadOne(s: bytes, i: nat, out: bytes, next: nat)
    requires i <= |s| && At(s, i) != QUOTE && At(s, i) != 0 && ReadChars(s, i).Done?
    requires if s[i] == BACKSLASH then (out, next) == UnescapeAt(s, i) else (out, next) == ([s[i]], i + 1)
    ensures i < next <= |s| && ReadChars(s, next).Done?
    ensures ReadChars(s, i) == Done(out + ReadChars(s, next).value, ReadChars(s, next).end)
  {
    hide UnescapeAt;
  }

  lemma {:induction false} ReadEnd(s: bytes, i: nat)
    requires i <= |s| && (At(s, i) == QUOTE || At(s, i) == 0)
    ensures ReadChars(s, i) == Done([], i)
  {
  }

  // ------------------------------------------------------------ arrays

  /** The chain of the values parsed so far, linked to what follows. */
  function Chain(vs: seq<Json>, tail: Items): Items {
    if vs == [] then tail else Item(vs[0], Chain(vs[1..], tail))
  }

  function WithItems(vs: seq<Json>, r: Parsed<Items>): Parsed<Items> {
    match r
    case Done(tail, end) => Done(Chain(vs, tail), end)
    case other => other
  }

  /** What follows an element. */
  function AfterItem(s: bytes, j: nat): Parsed<Items>
    requires j <= |s|
  {
    if At(s, j) == COMMA then ParseItems(s, j + 1)
    else if At(s, j) == 93 then Done(NoItem, j + 1)
    else Fail
  }

  lemma {:induction false} ChainSnoc(vs: seq<Json>, v: Json, tail: Items)
    ensures Chain(vs + [v], tail) == Chain(vs, Item(v, tail))
    decreases |vs|
  {
    if vs == [] {
      assert [v][1..] == [] && [] + [v] == [v];
    } else {
      assert (vs + [v])[1..] == vs[1..] + [v];
      ChainSnoc(vs[1..], v, tail);
    }
  }

  /** One element of the list in front of what follows it. */
  lemma {:induction false} ItemsStep(s: bytes, i: nat, vs: seq<Json>)
    requires i <= |s|
    ensures match ParseValue(s, Skip(s, i))
            case Done(v, end) => WithItems(vs, ParseItems(s, i)) == WithItems(vs + [v], AfterItem(s, Skip(s, end)))
            case other => ParseItems(s, i) == (if other.Fail? then Fail else Overrun)
  {
    hide ParseValue, Skip;
    match ParseValue(s, Skip(s, i))
    case Done(v, end) =>
      var r := AfterItem(s, Skip(s, end));
      if r.Done? { ChainSnoc(vs, v, r.value); }
    case _ =>
  }

  function AsArray(r: Parsed<Items>): Parsed<Json> {
    match r
    case Done(items, end) => Done(Array(items), end)
    case Fail => Fail
    case Overrun => Overrun
  }

  lemma {:induction false} ValueOfArray(s: bytes, i: nat)
    requires i < |s| && s[i] == 91
    ensures var j := Skip(s, i + 1);
            ParseValue(s, i) == if At(s, j) == 93 then Done(Array(NoItem), j + 1) else AsArray(ParseItems(s, j))
  {
    hide ParseItems, ParseMembers;
    R.NotAWord(s, i);
  }

  method ReadArray(s: bytes, i: nat) returns (r: Parsed<Json>)
    requires i < |s| && s[i] == 91 && !ParseValue(s, i).Overrun?
    ensures r == ParseValue(s, i)
    decreases |s| - i, 0
  {
    ValueOfArray(s, i);
    hide ParseValue, ParseItems, Skip;
    var start := SkipBlanks(s, i + 1);
    if At(s, start) == 93 {
      return Done(Array(NoItem), start + 1);
    }
    var items := ReadItems(s, start);
    return if items.Done? then Done(Array(items.value), items.end) else Fail;
  }

  /** The first element and the loop over the others. */
  method ReadItems(s: bytes, i: nat) returns (r: Parsed<Items>)
    requires i <= |s| && !ParseItems(s, i).Overrun?
    ensures r == ParseItems(s, i)
    decreases |s| - i, 2
  {
    hide ParseValue, ParseItems, Skip, Chain;
    NothingYet(ParseItems(s, i));
    ItemsStep(s, i, []);
    var at := SkipBlanks(s, i);
    var v := ReadValue(s, at);
    if v.Fail? {
      return Fail;
    }
    var vs := [v.value];
    var pos := SkipBlanks(s, v.end);
    assert [] + vs == vs;
    while At(s, pos) == COMMA
      invariant i < pos <= |s|
      invariant ParseItems(s, i) == WithItems(vs, AfterItem(s, pos))
      decreases |s| - pos
    {
      ItemsStep(s, pos + 1, vs);
      at := SkipBlanks(s, pos + 1);
      v := ReadValue(s, at);
      if v.Fail? {
        return Fail;
      }
      vs := vs + [v.value];
      pos := SkipBlanks(s, v.end);
    }
    return if At(s, pos) == 93 then Done(Chain(vs, NoItem), pos + 1) else Fail;
  }

  lemma {:induction false} NothingYet(r: Parsed<Items>)
    ensures WithItems([], r) == r
  {
  }

  // ------------------------------------------------------------ objects

  function Links(ns: seq<bytes>, vs: seq<Json>, rest: Members): Members
    requires |ns| == |vs|
  {
    if ns == [] then rest else Member(ns[0], vs[0], Links(ns[1..], vs[1..], rest))
  }

  function WithMembers(ns: seq<bytes>, vs: seq<Json>, r: Parsed<Members>): Parsed<Members>
    requires |ns| == |vs|
  {
    match r
    case Done(rest, end) => Done(Links(ns, vs, rest), end)
    case other => other
  }

  /** What follows a member. */
  function AfterMember(s: bytes, j: nat): Parsed<Members>
    requires j <= |s|
  {
    if At(s, j) == COMMA then ParseMembers(s, j + 1)
    else if At(s, j) == 125 then Done(NoMember, j + 1)
    else Fail
  }

  lemma {:induction false} LinksSnoc(ns: seq<bytes>, vs: seq<Json>, n: bytes, v: Json, rest: Members)
    requires |ns| == |vs|
    ensures Links(ns + [n], vs + [v], rest) == Links(ns, vs, Member(n, v, rest))
    decreases |ns|
  {
    if ns == [] {
      assert [v][1..] == [] && [] + [v] == [v] && [n][1..] == [] && [] + [n] == [n];
    } else {
      assert (vs + [v])[1..] == vs[1..] + [v] && (ns + [n])[1..] == ns[1..] + [n];
      LinksSnoc(ns[1..], vs[1..], n, v, rest);
    }
  }

  /** Name and value of one member, and the position behind the blanks that follow. */
  function ParseMember(s: bytes, i: nat): (r: Parsed<(bytes, Json)>)
    requires i <= |s|
    ensures r.Done? ==> i < r.end <= |s|
  {
    match ParseName(s, i)
    case Fail => Fail
    case Overrun => Overrun
    case Done(name, k) =>
      match ParseValue(s, Skip(s, k))
      case Fail => Fail
      case Overrun => Overrun
      case Done(v, end) => Done((name, v), Skip(s, end))
  }

  lemma {:induction false} MembersStep(s: bytes, i: nat, ns: seq<bytes>, vs: seq<Json>)
    requires i <= |s| && |ns| == |vs|
    ensures match ParseMember(s, i)
            case Done((n, v), j) =>
              WithMembers(ns, vs, ParseMembers(s, i)) == WithMembers(ns + [n], vs + [v], AfterMember(s, j))
            case Fail => ParseMembers(s, i) == Fail
            case Overrun => ParseMembers(s, i) == Overrun
  {
    hide ParseValue, ParseName, Skip;
    match ParseMember(s, i)
    case Done((n, v), j) =>
      var r := AfterMember(s, j);
      if r.Done? { LinksSnoc(ns, vs, n, v, r.value); }
    case _ =>
  }

  function AsObject(r: Parsed<Members>): Parsed<Json> {
    match r
    case Done(ms, end) => Done(Object(ms), end)
    case Fail => Fail
    case Overrun => Overrun
  }

  lemma {:induction false} ValueOfObject(s: bytes, i: nat)
    requires i < |s| && s[i] == 123
    ensures var j := Skip(s, i + 1);
            ParseValue(s, i) == if At(s, j) == 125 then Done(Object(NoMember), j + 1) else AsObject(ParseMembers(s, j))
  {
    hide ParseItems, ParseMembers;
    R.NotAWord(s, i);
  }

  method ReadName(s: bytes, i: nat) returns (r: Parsed<bytes>)
    requires i <= |s| && !ParseName(s, i).Overrun?
    ensures r == ParseName(s, i)
  {
    hide ParseString, Skip;
    var at := SkipBlanks(s, i);
    r := ReadString(s, at);
    if r.Fail? {
      return Fail;
    }
    var pos := SkipBlanks(s, r.end);
    if At(s, pos) != COLON {
      return Fail;
    }
    return Done(r.value, pos + 1);
  }

  method ReadMember(s: bytes, i: nat) returns (r: Parsed<(bytes, Json)>)
    requires i <= |s| && !ParseMember(s, i).Overrun?
    ensures r == ParseMember(s, i)
    decreases |s| - i, 2
  {
    hide ParseName, ParseValue, Skip;
    var n := ReadName(s, i);
    if n.Fail? {
      return Fail;
    }
    var at := SkipBlanks(s, n.end);
    var v := ReadValue(s, at);
    if v.Fail? {
      return Fail;
    }
    var pos := SkipBlanks(s, v.end);
    return Done((n.value, v.value), pos);
  }

  method ReadObject(s: bytes, i: nat) returns (r: Parsed<Json>)
    requires i < |s| && s[i] == 123 && !ParseValue(s, i).Overrun?
    ensures r == ParseValue(s, i)
    decreases |s| - i, 0
  {
    ValueOfObject(s, i);
    hide ParseValue, ParseMembers, Skip;
    var start := SkipBlanks(s, i + 1);
    if At(s, start) == 125 {
      return Done(Object(NoMember), start + 1);
    }
    var ms := ReadMembers(s, start);
    return if ms.Done? then Done(Object(ms.value), ms.end) else Fail;
  }

  /** The first member and the loop over the others. */
  method ReadMembers(s: bytes, i: nat) returns (r: Parsed<Members>)
    requires i <= |s| && !ParseMembers(s, i).Overrun?
    ensures r == ParseMembers(s, i)
    decreases |s| - i, 3
  {
    hide ParseValue, ParseMembers, ParseMember, Skip, Links;
    NoneYet(ParseMembers(s, i));
    MembersStep(s, i, [], []);
    var m := ReadMember(s, i);
    if m.Fail? {
      return Fail;
    }
    var ns, vs, pos := [m.value.0], [m.value.1], m.end;
    assert [] + ns == ns && [] + vs == vs;
    while At(s, pos) == COMMA
      invariant i < pos <= |s| && |ns| == |vs|
      invariant ParseMembers(s, i) == WithMembers(ns, vs, AfterMember(s, pos))
      decreases |s| - pos
    {
      MembersStep(s, pos + 1, ns, vs);
      m := ReadMember(s, pos + 1);
      if m.Fail? {
        return Fail;
      }
      ns, vs, pos := ns + [m.value.0], vs + [m.value.1], m.end;
    }
    return if At(s, pos) == 125 then Done(Links(ns, vs, NoMember), pos + 1) else Fail;
  }

  lemma {:induction false} NoneYet(r: Parsed<Members>)
    ensures WithMembers([], [], r) == r
  {
  }

  // ------------------------------------------------------------ values

  method ReadValue(s: bytes, i: nat) returns (r: Parsed<Json>)
    requires i <= |s| && !ParseValue(s, i).Overrun?
    ensures r == ParseValue(s, i)
    decreases |s| - i, 1
  {
    if HasAt(s, i, NULL_TEXT) {
      return Done(Null, i + 4);
    }
    if HasAt(s, i, FALSE_TEXT) {
      return Done(False, i + 5);
    }
    if HasAt(s, i, TRUE_TEXT) {
      return Done(True, i + 4);
    }
    var c := At(s, i);
    if c == 91 {
      r := ReadArray(s, i);
      return;
    }
    if c == 123 {
      r := ReadObject(s, i);
      return;
    }
    hide ParseItems, ParseMembers, ParseNumber, ParseString, HasAt;
    if c == QUOTE {
      var t := ReadString(s, i);
      return if t.Done? then Done(String(t.value), t.end) else Fail;
    }
    if c == 45 || Digit(c) {
      var x, end := ReadNumber(s, i);
      return Done(Number(x), end);
    }
    return Fail;
  }

  /** cJSON_ParseWithOpts. */
  method ReadText(s: bytes, strict: bool) returns (r: Parsed<Json>)
    requires !ParseText(s, strict).Overrun?
    ensures r == ParseText(s, strict)
  {
    hide ParseValue, Skip;
    var at := SkipBlanks(s, 0);
    r := ReadValue(s, at);
    if r.Fail? || !strict {
      return;
    }
    var end := SkipBlanks(s, r.end);
    if At(s, end) != 0 {
      return Fail;
    }
    return Done(r.value, end);
  }
}
