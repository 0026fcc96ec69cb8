/** Writing text through a moving cursor, as both printers do it. What stands below the cursor
    is what has been written; nothing is said about the bytes above it. */
module JsonWrite {
  import opened Bytes
  import opened JsonText

  /** `text` stands at the start of the buffer with a terminator behind it. */
  ghost predicate CString(a: array<byte>, text: bytes)
    reads a
  {
    |text| < a.Length && a[..|text|] == text && a[|text|] == 0
  }

  method Emit(a: array<byte>, at: nat, c: byte) returns (next: nat)
    requires at < a.Length
    modifies a
    ensures next == at + 1 && a[..next] == old(a[..at]) + [c]
  {
    a[at] := c;
    next := at + 1;
    assert a[..next] == a[..at] + [c];
  }

  /** memcpy, or strcpy without its terminator. */
  method EmitAll(a: array<byte>, at: nat, t: bytes) returns (next: nat)
    requires at + |t| <= a.Length
    modifies a
    ensures next == at + |t| && a[..next] == old(a[..at]) + t
  {
    var k := 0;
    assert a[..at + 0] == old(a[..at]) + t[..0];
    while k < |t|
      invariant k <= |t| && a[..at + k] == old(a[..at]) + t[..k]
    {
      var n := Emit(a, at + k, t[k]);
      TakeSnoc(t, k + 1);
      ConcatAssoc(old(a[..at]), t[..k], [t[k]]);
      k := k + 1;
    }
    next := at + |t|;
    assert t[..k] == t;
  }

  method Terminate(a: array<byte>, at: nat)
    requires at < a.Length
    modifies a
    ensures a[..at] == old(a[..at]) && a[at] == 0
  {
    a[at] := 0;
  }

  /** strlen. The text is what the caller knows to stand there. */
  method StrLen(a: array<byte>, from: nat, ghost text: bytes) returns (n: nat)
    requires from <= |text| && CString(a, text) && NonZero(text[from..])
    ensures n == |text| - from
  {
    n := 0;
    while a[from + n] != 0
      invariant from + n <= |text|
      decreases |text| - n
    {
      n := n + 1;
    }
    assert forall k :: 0 <= k < |text| ==> a[..|text|][k] == a[k];
    assert forall k :: 0 <= k < |text| - from ==> text[from..][k] == text[from + k];
  }

  /** The length of a text that fills a buffer from its start. */
  method TextLength(a: array<byte>, ghost text: bytes) returns (n: nat)
    requires CString(a, text) && NonZero(text)
    ensures n == |text|
  {
    assert text[0..] == text;
    n := StrLen(a, 0, text);
  }

  method EmitTabs(a: array<byte>, at: nat, n: nat) returns (next: nat)
    requires at + n <= a.Length
    modifies a
    ensures next == at + n && a[..next] == old(a[..at]) + Tabs(n)
  {
    next := at;
    assert old(a[..at]) + Tabs(0) == old(a[..at]);
    for j := 0 to n
      invariant next == at + j && a[..next] == old(a[..at]) + Tabs(j)
    {
      next := Emit(a, next, TAB);
      assert Tabs(j + 1) == Tabs(j) + [TAB];
      ConcatAssoc(old(a[..at]), Tabs(j), [TAB]);
    }
  }

  /** Text written only when formatting. */
  method EmitWhen(a: array<byte>, at: nat, fmt: bool, c: byte) returns (next: nat)
    requires at + |When(fmt, [c])| <= a.Length
    modifies a
    ensures next == at + |When(fmt, [c])| && a[..next] == old(a[..at]) + When(fmt, [c])
  {
    next := at;
    if fmt {
      next := Emit(a, at, c);
    }
  }

  /** Indentation written only when formatting. */
  method EmitIndent(a: array<byte>, at: nat, fmt: bool, n: nat) returns (next: nat)
    requires at + |When(fmt, Tabs(n))| <= a.Length
    modifies a
    ensures next == at + |When(fmt, Tabs(n))| && a[..next] == old(a[..at]) + When(fmt, Tabs(n))
  {
    next := at;
    if fmt {
      next := EmitTabs(a, at, n);
    }
  }

  /** What stands behind a member's value, with a terminator. */
  method EmitTail(a: array<byte>, at: nat, last: bool, fmt: bool) returns (next: nat)
    requires at + |MemberTail(last, fmt)| < a.Length
    modifies a
    ensures next == at + |MemberTail(last, fmt)| && a[..next] == old(a[..at]) + MemberTail(last, fmt) && a[next] == 0
  {
    next := at;
    if !last {
      next := Emit(a, at, COMMA);
    }
    next := EmitWhen(a, next, fmt, NEWLINE);
    Terminate(a, next);
  }

  // ------------------------------------------------------------ strings

  predicate Special(c: byte) { c < 32 || c == QUOTE || c == BACKSLASH }

  /** A byte is special exactly when it is not printed as it is. */
  lemma {:induction false} SpecialMeans(c: byte)
    ensures Special(c) <==> Escape(c) != [c]
  {
  }

  predicate AnySpecial(s: bytes) { exists i :: 0 <= i < |s| && Special(s[i]) }

  lemma {:induction false} EscapeNothing(s: bytes)
    requires !AnySpecial(s)
    ensures EscapeAll(s) == s
    decreases |s|
  {
    if s != [] {
      assert !Special(s[0]);
      EscapeNothing(s[1..]);
      assert s == [s[0]] + s[1..];
    }
  }

  lemma {:induction false} EscapeSnoc(s: bytes, c: byte)
    ensures EscapeAll(s + [c]) == EscapeAll(s) + Escape(c)
    decreases |s|
  {
    hide Escape;
    if s == [] {
      assert s + [c] == [c] && [c][1..] == [];
      assert EscapeAll([c]) == Escape(c) + EscapeAll([]);
      assert EscapeAll([]) == [];
    } else {
      assert (s + [c])[1..] == s[1..] + [c] && (s + [c])[0] == s[0];
      EscapeSnoc(s[1..], c);
      ConcatAssoc(Escape(s[0]), EscapeAll(s[1..]), Escape(c));
    }
  }

  /** The first pass: whether anything has to be escaped. */
  method NeedsEscape(s: bytes) returns (flag: bool)
    requires NonZero(s)
    ensures flag == AnySpecial(s)
  {
    flag := false;
    for i := 0 to |s|
      invariant flag <==> exists j :: 0 <= j < i && Special(s[j])
    {
      flag := flag || Special(s[i]);
    }
  }

  /** The second pass: the length of the escaped text. */
  method EscapedLength(s: bytes) returns (len: nat)
    ensures len == |EscapeAll(s)|
  {
    len := 0;
    for i := 0 to |s|
      invariant len == |EscapeAll(s[..i])|
    {
      len := len + 1;
      var c := s[i];
      if c == QUOTE || c == BACKSLASH || c == 8 || c == 12 || c == 10 || c == 13 || c == 9 {
        len := len + 1;
      } else if c < 32 {
        len := len + 5;
      }
      TakeSnoc(s, i + 1);
      EscapeSnoc(s[..i], c);
    }
    assert s[..|s|] == s;
  }

  /** One character inside quotes. A \u escape is written with a terminator behind it. */
  method EmitEscape(a: array<byte>, at: nat, c: byte) returns (next: nat)
    requires c != 0 && at + |Escape(c)| < a.Length
    modifies a
    ensures next == at + |Escape(c)| && a[..next] == old(a[..at]) + Escape(c)
  {
    if c > 31 && c != QUOTE && c != BACKSLASH {
      next := Emit(a, at, c);
      return;
    }
    next := Emit(a, at, BACKSLASH);
    ghost var below := old(a[..at]);
    if c == BACKSLASH || c == QUOTE {
      next := Emit(a, next, c);
    } else if c == 8 {
      next := Emit(a, next, 98);
    } else if c == 12 {
      next := Emit(a, next, 102);
    } else if c == 10 {
      next := Emit(a, next, 110);
    } else if c == 13 {
      next := Emit(a, next, 114);
    } else if c == 9 {
      next := Emit(a, next, 116);
    } else {
      next := EmitAll(a, next, [117, 48, 48, HexDigit(c / 16), HexDigit(c % 16)]);
      Terminate(a, next);
    }
    ConcatAssoc(below, [BACKSLASH], Escape(c)[1..]);
    assert Escape(c) == [BACKSLASH] + Escape(c)[1..];
  }

  method EmitEscaped(a: array<byte>, at: nat, s: bytes) returns (next: nat)
    requires NonZero(s) && at + |EscapeAll(s)| < a.Length
    modifies a
    ensures next == at + |EscapeAll(s)| && a[..next] == old(a[..at]) + EscapeAll(s)
  {
    hide Escape, EscapeAll;
    next := at;
    EscapePrefix(s, 0);
    for i := 0 to |s|
      invariant next == at + |EscapeAll(s[..i])| <= at + |EscapeAll(s)|
      invariant a[..next] == old(a[..at]) + EscapeAll(s[..i])
    {
      EscapePrefix(s, i);
      EscapePrefix(s, i + 1);
      next := EmitEscape(a, next, s[i]);
      ConcatAssoc(old(a[..at]), EscapeAll(s[..i]), Escape(s[i]));
    }
    assert s[..|s|] == s;
  }

  lemma {:induction false} EscapePrefix(s: bytes, i: nat)
    requires i <= |s|
    ensures |EscapeAll(s[..i])| <= |EscapeAll(s)|
    ensures i == 0 ==> EscapeAll(s[..i]) == []
    ensures i > 0 ==> EscapeAll(s[..i]) == EscapeAll(s[..i - 1]) + Escape(s[i - 1])
    decreases |s| - i
  {
    hide Escape;
    if i > 0 {
      TakeSnoc(s, i);
      EscapeSnoc(s[..i - 1], s[i - 1]);
    }
    if i < |s| { EscapePrefix(s, i + 1); } else { assert s[..i] == s; }
  }

  /** Write a string in quotes with its terminator, escaping only when the flag says so. */
  method EmitQuoted(a: array<byte>, at: nat, s: bytes, flag: bool) returns (next: nat)
    requires NonZero(s) && flag == AnySpecial(s) && at + |Quoted(s)| < a.Length
    modifies a
    ensures next == at + |Quoted(s)| && a[..next] == old(a[..at]) + Quoted(s) && a[next] == 0
  {
    hide EscapeAll, AnySpecial;
    ghost var below := old(a[..at]);
    next := Emit(a, at, QUOTE);
    if flag {
      next := EmitEscaped(a, next, s);
    } else {
      EscapeNothing(s);
      next := EmitAll(a, next, s);
      Terminate(a, next);
    }
    next := Emit(a, next, QUOTE);
    Terminate(a, next);
    assert a[..next] == below + [QUOTE] + EscapeAll(s) + [QUOTE];
    QuotedParts(below, s);
  }

  lemma {:induction false} QuotedParts(below: bytes, s: bytes)
    ensures below + [QUOTE] + EscapeAll(s) + [QUOTE] == below + Quoted(s)
  {
    hide EscapeAll;
    ConcatAssoc(below, [QUOTE], EscapeAll(s));
    ConcatAssoc(below, [QUOTE] + EscapeAll(s), [QUOTE]);
  }
}
