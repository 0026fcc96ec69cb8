/** The buffered printer: one growing buffer, an offset behind what has been written, and positions
    in the buffer that are taken anew after every possible growth. */
module JsonBuffered {
  import opened Bytes
  import opened JsonText
  import opened JsonWrite
  import opened JsonGrowth
  import opened JsonPrinter
  import R = JsonRoundTrip

  /** What a nested call may need beyond its text: a number reserves 21 bytes. */
  const SLACK: nat := 21

  /** The offset of the address a call returns. A formatted object with members overwrites the
      variable that held its start with the closing indentation. */
  function Returned(v: Json, depth: nat, fmt: bool, start: nat): nat {
    if fmt && v.Object? && v.members.Member? then depth else start
  }

  /** The address returned is that of the text, except for formatted objects with members that do not start
      as many bytes into the buffer as they are deep. A root starts at 0 and is 0 deep. */
  lemma {:induction false} ReturnedExactly(v: Json, depth: nat, fmt: bool, start: nat)
    ensures Returned(v, depth, fmt, start) == start <==> !(fmt && v.Object? && v.members != NoMember) || depth == start
    ensures Returned(v, depth, fmt, start) == start || Returned(v, depth, fmt, start) == depth
    ensures Returned(v, 0, fmt, 0) == 0
  {
  }

  class PrintBuffer {
    var buffer: array<byte>
    var length: nat
    var offset: nat

    ghost predicate Valid()
      reads this
    {
      length == buffer.Length && offset <= length
    }

    /** What has been written so far. */
    ghost function Text(): (t: bytes)
      reads this, buffer
      requires Valid()
      ensures |t| == offset
    {
      buffer[..offset]
    }

    /** The bytes still to be written, and what any call reserves, stay below the largest size. */
    ghost predicate Room(n: nat)
      reads this
    {
      offset + n + SLACK <= LARGEST
    }

    /** `text` stands in the buffer with its terminator, and the offset is at or before its end. */
    ghost predicate Wrote(text: bytes)
      reads this, buffer
    {
      offset <= |text| && CString(buffer, text)
    }

    constructor (prebuffer: nat)
      ensures Valid() && fresh(buffer) && offset == 0 && length == prebuffer
    {
      buffer := new byte[prebuffer];
      length, offset := prebuffer, 0;
    }

    /** Make room for `needed` bytes from the offset on; everything in the buffer is kept. */
    method Ensure(needed: nat) returns (at: nat)
      requires Valid() && 1 <= offset + needed <= LARGEST
      modifies this
      ensures Valid() && offset == old(offset) && at == offset && offset + needed <= length
      ensures length == if old(offset) + needed <= old(length) then old(length) else Pow2Gt(old(offset) + needed)
      ensures buffer[..old(length)] == old(buffer[..]) && Text() == old(Text())
      ensures buffer == old(buffer) || fresh(buffer)
    {
      hide Pow2Gt;
      at := offset;
      if needed + offset <= length {
        assert buffer[..length] == buffer[..];
        return;
      }
      LargeEnough(needed + offset);
      var newsize := Pow2Gt(needed + offset);
      var newbuffer := new byte[newsize];
      var end := EmitAll(newbuffer, 0, buffer[..]);
      assert newbuffer[..length] == buffer[..];
      assert newbuffer[..length][..offset] == newbuffer[..offset];
      length := newsize;
      buffer := newbuffer;
    }

    /** Move the offset to the terminator. */
    method Update(ghost text: bytes)
      requires Valid() && Wrote(text) && NonZero(text[offset..])
      modifies this`offset
      ensures Valid() && Text() == text
    {
      var n := StrLen(buffer, offset, text);
      offset := offset + n;
    }

    method PrintNumber(x: real) returns (at: nat)
      requires Valid() && IntValue(x) && Room(|IntText(x.Floor)|)
      modifies this, buffer
      ensures Valid() && (buffer == old(buffer) || fresh(buffer))
      ensures at == offset == old(offset) && Wrote(old(Text()) + IntText(x.Floor))
    {
      hide Decimal;
      NumberFits(x);
      ZeroText();
      at := Ensure(if x == 0.0 then 2 else 21);
      var next := EmitAll(buffer, at, if x == 0.0 then [48] else IntText(x.Floor));
      Terminate(buffer, next);
    }

    method PrintString(s: bytes) returns (at: nat)
      requires Valid() && NonZero(s) && Room(|Quoted(s)|)
      modifies this, buffer
      ensures Valid() && (buffer == old(buffer) || fresh(buffer))
      ensures at == offset == old(offset) && Wrote(old(Text()) + Quoted(s))
    {
      hide EscapeAll, AnySpecial, NonZero;
      var flag := NeedsEscape(s);
      var len;
      if flag {
        len := EscapedLength(s);
      } else {
        len := |s|;
        EscapeNothing(s);
      }
      at := Ensure(len + 3);
      var next := EmitQuoted(buffer, at, s, flag);
    }

    /** A literal with its terminator. */
    method PrintLiteral(t: bytes) returns (at: nat)
      requires Valid() && Room(|t|)
      modifies this, buffer
      ensures Valid() && (buffer == old(buffer) || fresh(buffer))
      ensures at == offset == old(offset) && Wrote(old(Text()) + t)
    {
      at := Ensure(|t| + 1);
      var next := EmitAll(buffer, at, t);
      Terminate(buffer, next);
    }

    /** print_value with a buffer: behind what was written stands `Print` and a terminator. */
    method PrintValue(v: Json, depth: nat, fmt: bool) returns (at: nat)
      requires Valid() && Ok(v) && Room(|Print(v, depth, fmt)|)
      modifies this, buffer
      ensures Valid() && (buffer == old(buffer) || fresh(buffer))
      ensures old(offset) <= offset && Wrote(old(Text()) + Print(v, depth, fmt))
      ensures at == Returned(v, depth, fmt, old(offset))
      decreases v, 1
    {
      hide Decimal, EscapeAll, NonZero, PrintItems, PrintMembers, Wrote, Room, Text, Valid;
      match v
      case Null => at := PrintLiteral(NULL_TEXT);
      case False => at := PrintLiteral(FALSE_TEXT);
      case True => at := PrintLiteral(TRUE_TEXT);
      case Number(x) => at := PrintNumber(x);
      case String(s) => at := PrintString(s);
      case Array(items) => at := PrintArray(items, depth, fmt);
      case Object(ms) => at := PrintObject(ms, depth, fmt);
    }

    /** Print a value and move the offset behind it. */
    method PrintOn(v: Json, depth: nat, fmt: bool)
      requires Valid() && Ok(v) && Room(|Print(v, depth, fmt)|)
      modifies this, buffer
      ensures Valid() && (buffer == old(buffer) || fresh(buffer))
      ensures Text() == old(Text()) + Print(v, depth, fmt)
      decreases v, 2
    {
      hide Ok, Print;
      ghost var t, start := Print(v, depth, fmt), Text();
      PrintNonZero(v, depth, fmt);
      var at := PrintValue(v, depth, fmt);
      SuffixNonZero(start, t, offset);
      Update(start + t);
    }

    method PrintName(s: bytes)
      requires Valid() && NonZero(s) && Room(|Quoted(s)|)
      modifies this, buffer
      ensures Valid() && (buffer == old(buffer) || fresh(buffer))
      ensures Text() == old(Text()) + Quoted(s)
    {
      hide Quoted;
      ghost var start := Text();
      QuotedNonZero(s);
      var at := PrintString(s);
      SuffixNonZero(start, Quoted(s), offset);
      Update(start + Quoted(s));
    }

    method PrintArray(items: Items, depth: nat, fmt: bool) returns (at: nat)
      requires Valid() && ItemsOk(items) && Room(|Print(Array(items), depth, fmt)|)
      modifies this, buffer
      ensures Valid() && (buffer == old(buffer) || fresh(buffer))
      ensures old(offset) <= offset && Wrote(old(Text()) + Print(Array(items), depth, fmt))
      ensures at == old(offset)
      decreases items, 2
    {
      if items.NoItem? {
        assert [91] + [] + [93] == [91, 93];
        at := PrintLiteral([91, 93]);
        return;
      }
      at := offset;
      ghost var start, inner := Text(), PrintItems(items, depth + 1, fmt);
      hide PrintItems, ItemsOk, Text, Wrote;
      OpenArray();
      PrintChildren(items, depth + 1, fmt);
      CloseArray();
      ConcatAssoc(start, [91], inner);
      ConcatAssoc(start, [91] + inner, [93]);
    }

    /** The opening bracket, without a terminator. */
    method OpenArray()
      requires Valid() && Room(1)
      modifies this, buffer
      ensures Valid() && (buffer == old(buffer) || fresh(buffer))
      ensures Text() == old(Text()) + [91]
    {
      var at := Ensure(1);
      at := Emit(buffer, at, 91);
      offset := offset + 1;
    }

    /** A closing bracket; the offset stays in front of it. */
    method CloseArray()
      requires Valid() && Room(1)
      modifies this, buffer
      ensures Valid() && (buffer == old(buffer) || fresh(buffer))
      ensures offset == old(offset) && Wrote(old(Text()) + [93])
    {
      var at := Ensure(2);
      at := Emit(buffer, at, 93);
      Terminate(buffer, at);
    }

    /** The loop over the children. */
    method PrintChildren(items: Items, depth: nat, fmt: bool)
      requires Valid() && ItemsOk(items) && Room(|PrintItems(items, depth, fmt)|)
      modifies this, buffer
      ensures Valid() && (buffer == old(buffer) || fresh(buffer))
      ensures Text() == old(Text()) + PrintItems(items, depth, fmt)
      decreases items, 1
    {
      hide PrintItems;
      ghost var goal := Text() + PrintItems(items, depth, fmt);
      var child := items;
      while child.Item?
        invariant Valid() && (buffer == old(buffer) || fresh(buffer))
        invariant ItemsOk(child) && (child == items || child < items)
        invariant Text() + PrintItems(child, depth, fmt) == goal
        invariant Room(|PrintItems(child, depth, fmt)|)
        decreases child
      {
        PrintChild(child, depth, fmt);
        child := child.tail;
      }
      R.NoItemsText(depth, fmt);
      assert Text() + [] == Text();
    }

    /** One turn of it: the child and, if another follows, the separator. */
    method PrintChild(items: Items, depth: nat, fmt: bool)
      requires Valid() && items.Item? && ItemsOk(items) && Room(|PrintItems(items, depth, fmt)|)
      modifies this, buffer
      ensures Valid() && (buffer == old(buffer) || fresh(buffer))
      ensures Text() + PrintItems(items.tail, depth, fmt) == old(Text()) + PrintItems(items, depth, fmt)
      ensures Room(|PrintItems(items.tail, depth, fmt)|)
      decreases items, 0
    {
      ghost var start, t, rest := Text(), Print(items.head, depth, fmt), PrintItems(items.tail, depth, fmt);
      ghost var sep := Separator(items.tail.NoItem?, fmt);
      assert PrintItems(items, depth, fmt) == t + sep + rest;
      hide PrintItems, Print, Text, Wrote;
      PrintOn(items.head, depth, fmt);
      if items.tail.Item? {
        PrintSeparator(fmt);
      } else {
        assert start + t + [] == start + t;
      }
      assert Text() == start + t + sep;
      ConcatAssoc(start, t, sep);
      ConcatAssoc(start, t + sep, rest);
    }

    method PrintSeparator(fmt: bool)
      requires Valid() && Room(|Separator(false, fmt)|)
      modifies this, buffer
      ensures Valid() && (buffer == old(buffer) || fresh(buffer))
      ensures Text() == old(Text()) + Separator(false, fmt)
    {
      var len := if fmt then 2 else 1;
      var at := Ensure(len + 1);
      at := Emit(buffer, at, COMMA);
      at := EmitWhen(buffer, at, fmt, SPACE);
      Terminate(buffer, at);
      offset := offset + len;
    }

    method PrintObject(ms: Members, depth: nat, fmt: bool) returns (at: nat)
      requires Valid() && MembersOk(ms) && Room(|Print(Object(ms), depth, fmt)|)
      modifies this, buffer
      ensures Valid() && (buffer == old(buffer) || fresh(buffer))
      ensures old(offset) <= offset && Wrote(old(Text()) + Print(Object(ms), depth, fmt))
      ensures at == Returned(Object(ms), depth, fmt, old(offset))
      decreases ms, 3
    {
      if ms.NoMember? {
        at := PrintEmptyObject(depth, fmt);
      } else {
        at := PrintFullObject(ms, depth, fmt);
      }
    }

    method PrintEmptyObject(depth: nat, fmt: bool) returns (at: nat)
      requires Valid() && Room(|Print(Object(NoMember), depth, fmt)|)
      modifies this, buffer
      ensures Valid() && (buffer == old(buffer) || fresh(buffer))
      ensures at == offset == old(offset) && Wrote(old(Text()) + Print(Object(NoMember), depth, fmt))
    {
      ghost var start := Text();
      var n := if depth > 0 then depth - 1 else 0;
      ghost var gap := When(fmt, [NEWLINE] + Tabs(n));
      assert Print(Object(NoMember), depth, fmt) == [123] + gap + [125];
      hide Tabs, Print;
      at := Ensure(if fmt then depth + 4 else 3);
      var next := Emit(buffer, at, 123);
      if fmt {
        next := Emit(buffer, next, NEWLINE);
        next := EmitTabs(buffer, next, n);
        ConcatAssoc(start + [123], [NEWLINE], Tabs(n));
      }
      assert buffer[..next] == start + [123] + gap;
      next := Emit(buffer, next, 125);
      Terminate(buffer, next);
      ConcatAssoc(start, [123], gap);
      ConcatAssoc(start, [123] + gap, [125]);
    }

    method PrintFullObject(ms: Members, depth: nat, fmt: bool) returns (at: nat)
      requires Valid() && ms.Member? && MembersOk(ms) && Room(|Print(Object(ms), depth, fmt)|)
      modifies this, buffer
      ensures Valid() && (buffer == old(buffer) || fresh(buffer))
      ensures old(offset) <= offset && Wrote(old(Text()) + Print(Object(ms), depth, fmt))
      ensures at == if fmt then depth else old(offset)
      decreases ms, 2
    {
      ghost var start, line, inner, tabs := Text(), When(fmt, [NEWLINE]), PrintMembers(ms, depth + 1, fmt), When(fmt, Tabs(depth));
      assert Print(Object(ms), depth, fmt) == [123] + line + inner + tabs + [125];
      hide PrintMembers, MembersOk, Print, Tabs, When, Text, Wrote;
      at := offset;
      OpenObject(fmt);
      PrintPairs(ms, depth + 1, fmt);
      at := CloseObject(depth, fmt, at);
      ObjectPieces(start, line, inner, tabs);
    }

    /** The opening brace and the end of its line. */
    method OpenObject(fmt: bool)
      requires Valid() && Room(1 + |When(fmt, [NEWLINE])|)
      modifies this, buffer
      ensures Valid() && (buffer == old(buffer) || fresh(buffer))
      ensures Text() == old(Text()) + ([123] + When(fmt, [NEWLINE]))
    {
      var len := if fmt then 2 else 1;
      var at := Ensure(len + 1);
      at := Emit(buffer, at, 123);
      at := EmitWhen(buffer, at, fmt, NEWLINE);
      Terminate(buffer, at);
      offset := offset + len;
    }

    /** Indentation and the closing brace. The loop that indents counts in the variable that held
        the start of the object. */
    method CloseObject(depth: nat, fmt: bool, start: nat) returns (i: nat)
      requires Valid() && Room(|When(fmt, Tabs(depth))| + 1)
      modifies this, buffer
      ensures Valid() && (buffer == old(buffer) || fresh(buffer))
      ensures offset == old(offset) && Wrote(old(Text()) + (When(fmt, Tabs(depth)) + [125]))
      ensures i == if fmt then depth else start
    {
      i := start;
      var at := Ensure(if fmt then depth + 2 else 2);
      at := EmitIndent(buffer, at, fmt, depth);
      if fmt {
        i := depth;
      }
      at := Emit(buffer, at, 125);
      Terminate(buffer, at);
      ConcatAssoc(old(Text()), When(fmt, Tabs(depth)), [125]);
    }

    method PrintPairs(ms: Members, depth: nat, fmt: bool)
      requires Valid() && depth > 0 && MembersOk(ms) && Room(|PrintMembers(ms, depth, fmt)|)
      modifies this, buffer
      ensures Valid() && (buffer == old(buffer) || fresh(buffer))
      ensures Text() == old(Text()) + PrintMembers(ms, depth, fmt)
      decreases ms, 1
    {
      hide PrintMembers;
      ghost var goal := Text() + PrintMembers(ms, depth, fmt);
      var child := ms;
      while child.Member?
        invariant Valid() && (buffer == old(buffer) || fresh(buffer))
        invariant MembersOk(child) && (child == ms || child < ms)
        invariant Text() + PrintMembers(child, depth, fmt) == goal
        invariant Room(|PrintMembers(child, depth, fmt)|)
        decreases child
      {
        PrintPair(child, depth, fmt);
        child := child.rest;
      }
      R.NoMembersText(depth, fmt);
      assert Text() + [] == Text();
    }

    method PrintPair(ms: Members, depth: nat, fmt: bool)
      requires Valid() && depth > 0 && ms.Member? && MembersOk(ms) && Room(|PrintMembers(ms, depth, fmt)|)
      modifies this, buffer
      ensures Valid() && (buffer == old(buffer) || fresh(buffer))
      ensures Text() + PrintMembers(ms.rest, depth, fmt) == old(Text()) + PrintMembers(ms, depth, fmt)
      ensures Room(|PrintMembers(ms.rest, depth, fmt)|)
      decreases ms, 0
    {
      ghost var start, head, t := Text(), MemberHead(ms.name, depth, fmt), Print(ms.value, depth, fmt);
      ghost var tail, rest := MemberTail(ms.rest.NoMember?, fmt), PrintMembers(ms.rest, depth, fmt);
      assert PrintMembers(ms, depth, fmt) == head + t + tail + rest;
      hide PrintMembers, Print, MemberHead, MemberTail, Text, Wrote;
      PrintHead(ms.name, depth, fmt);
      PrintOn(ms.value, depth, fmt);
      PrintTail(ms.rest.NoMember?, fmt);
      PairPieces(start, head, t, tail, rest);
    }

    /** Indentation, name and colon. */
    method PrintHead(name: bytes, depth: nat, fmt: bool)
      requires Valid() && depth > 0 && NonZero(name) && Room(|MemberHead(name, depth, fmt)|)
      modifies this, buffer
      ensures Valid() && (buffer == old(buffer) || fresh(buffer))
      ensures Text() == old(Text()) + MemberHead(name, depth, fmt)
    {
      hide Quoted, Tabs, NonZero, When, Text, Wrote;
      ghost var start, tabs := Text(), When(fmt, Tabs(depth));
      PrintIndent(depth, fmt);
      PrintName(name);
      PrintColon(fmt);
      ConcatAssoc(start, tabs, Quoted(name));
      ConcatAssoc(start, tabs + Quoted(name), [COLON]);
      ConcatAssoc(start, tabs + Quoted(name) + [COLON], When(fmt, [TAB]));
    }

    method PrintIndent(depth: nat, fmt: bool)
      requires Valid() && depth > 0 && Room(|When(fmt, Tabs(depth))|)
      modifies this, buffer
      ensures Valid() && (buffer == old(buffer) || fresh(buffer))
      ensures Text() == old(Text()) + When(fmt, Tabs(depth))
    {
      if fmt {
        var at := Ensure(depth);
        at := EmitTabs(buffer, at, depth);
        offset := offset + depth;
      }
    }

    method PrintColon(fmt: bool)
      requires Valid() && Room(1 + |When(fmt, [TAB])|)
      modifies this, buffer
      ensures Valid() && (buffer == old(buffer) || fresh(buffer))
      ensures Text() == old(Text()) + [COLON] + When(fmt, [TAB])
    {
      var len := if fmt then 2 else 1;
      var at := Ensure(len);
      at := Emit(buffer, at, COLON);
      at := EmitWhen(buffer, at, fmt, TAB);
      offset := offset + len;
    }

    /** Comma and end of line. */
    method PrintTail(last: bool, fmt: bool)
      requires Valid() && Room(|MemberTail(last, fmt)|)
      modifies this, buffer
      ensures Valid() && (buffer == old(buffer) || fresh(buffer))
      ensures Text() == old(Text()) + MemberTail(last, fmt)
    {
      var len := (if fmt then 1 else 0) + if last then 0 else 1;
      var at := Ensure(len + 1);
      at := EmitTail(buffer, at, last, fmt);
      offset := offset + len;
    }
  }

  lemma {:induction false} ObjectPieces(start: bytes, line: bytes, inner: bytes, tabs: bytes)
    ensures start + ([123] + line) + inner + (tabs + [125]) == start + ([123] + line + inner + tabs + [125])
  {
    ConcatAssoc(start, [123] + line, inner);
    ConcatAssoc([123] + line + inner, tabs, [125]);
    ConcatAssoc(start, [123] + line + inner, tabs + [125]);
  }

  lemma {:induction false} PairPieces(start: bytes, head: bytes, t: bytes, tail: bytes, rest: bytes)
    ensures start + head + t + tail + rest == start + (head + t + tail + rest)
  {
    ConcatAssoc(start, head, t);
    ConcatAssoc(start, head + t, tail);
    ConcatAssoc(start, head + t + tail, rest);
  }

  lemma {:induction false} SuffixNonZero(a: bytes, b: bytes, k: nat)
    requires NonZero(b) && |a| <= k <= |a + b|
    ensures NonZero((a + b)[k..])
  {
    assert (a + b)[k..] == b[k - |a|..];
  }

  /** cJSON_PrintBuffered: whatever the starting size, the buffer starts with the text the
      unbuffered printer makes, and the returned address is the start of the buffer. */
  method PrintBuffered(v: Json, prebuffer: nat, fmt: bool) returns (out: array<byte>, at: nat)
    requires Ok(v) && |Print(v, 0, fmt)| + SLACK <= LARGEST
    ensures fresh(out) && at == 0 && CString(out, Print(v, 0, fmt))
  {
    hide Print;
    var p := new PrintBuffer(prebuffer);
    at := p.PrintValue(v, 0, fmt);
    out := p.buffer;
    assert [] + Print(v, 0, fmt) == Print(v, 0, fmt);
  }
}
