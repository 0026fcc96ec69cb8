/** String literals of section 7 of RFC 8259, and what the two passes of the string parser make of
    them. */
module JsonLiteral {
  import opened Bytes
  import opened JsonText
  import opened JsonParse

  /** One character of a literal: unescaped, a two-character escape, or \u with four hex digits. */
  datatype Piece = Raw(c: byte) | Short(c: byte) | Uni(h: bytes)

  predicate PieceOk(p: Piece) {
    match p
    case Raw(c) => c >= 32 && c != QUOTE && c != BACKSLASH
    case Short(c) => c == 34 || c == 92 || c == 47 || c == 98 || c == 102 || c == 110 || c == 114 || c == 116
    case Uni(h) => |h| == 4 && forall k :: 0 <= k < 4 ==> HexValue(h[k]).Some?
  }

  predicate AllOk(ps: seq<Piece>) { forall i :: 0 <= i < |ps| ==> PieceOk(ps[i]) }

  function PieceText(p: Piece): bytes {
    match p
    case Raw(c) => [c]
    case Short(c) => [BACKSLASH, c]
    case Uni(h) => [BACKSLASH, 117] + h
  }

  function LiteralText(ps: seq<Piece>): bytes {
    if ps == [] then [] else PieceText(ps[0]) + LiteralText(ps[1..])
  }

  /** The UTF-16 code unit of a \u escape. */
  function Unit(p: Piece): (u: nat)
    requires p.Uni? && PieceOk(p)
    ensures u <= 0xFFFF
  {
    ((HexValue(p.h[0]).value * 16 + HexValue(p.h[1]).value) * 16 + HexValue(p.h[2]).value) * 16 + HexValue(p.h[3]).value
  }

  // ------------------------------------------------------------ meaning

  predicate Pairs(ps: seq<Piece>)
    requires AllOk(ps)
  {
    |ps| >= 2 && ps[0].Uni? && ps[1].Uni? && HighSurrogate(Unit(ps[0])) && LowSurrogate(Unit(ps[1]))
  }

  /** A high surrogate with another \u escape behind it that is not its low half. */
  predicate Mismatch(ps: seq<Piece>)
    requires AllOk(ps)
  {
    |ps| >= 2 && ps[0].Uni? && ps[1].Uni? && HighSurrogate(Unit(ps[0])) && !LowSurrogate(Unit(ps[1]))
  }

  /** What one character stands for by itself: zero and lone surrogates stand for nothing. */
  function Alone(p: Piece): bytes
    requires PieceOk(p)
  {
    match p
    case Raw(c) => [c]
    case Short(c) => [ShortEscape(c)]
    case Uni(_) =>
      if Unit(p) == 0 || LowSurrogate(Unit(p)) || HighSurrogate(Unit(p)) then [] else Utf8(Unit(p))
  }

  function PairBytes(ps: seq<Piece>): bytes
    requires AllOk(ps) && Pairs(ps)
  {
    Utf8(Combine(Unit(ps[0]), Unit(ps[1])))
  }

  /** The UTF-8 text of a literal, with zero and unpaired surrogates dropped and nothing else. */
  function Meaning(ps: seq<Piece>): bytes
    requires AllOk(ps)
    decreases |ps|
  {
    if ps == [] then []
    else if Pairs(ps) then PairBytes(ps) + Meaning(ps[2..])
    else Alone(ps[0]) + Meaning(ps[1..])
  }

  /** The text the parser makes of it: behind a high surrogate it takes the next \u escape as the
      low half and drops both when it is not. */
  function Decoded(ps: seq<Piece>): bytes
    requires AllOk(ps)
    decreases |ps|
  {
    if ps == [] then []
    else if Pairs(ps) then PairBytes(ps) + Decoded(ps[2..])
    else if Mismatch(ps) then Decoded(ps[2..])
    else Alone(ps[0]) + Decoded(ps[1..])
  }

  /** What the first pass counts for a literal. */
  function Weight(ps: seq<Piece>): nat {
    if ps == [] then 0 else (if ps[0].Uni? then 5 else 1) + Weight(ps[1..])
  }

  // ------------------------------------------------------------ both passes

  lemma {:induction false} LiteralParts(s: bytes, i: nat, ps: seq<Piece>)
    requires ps != [] && HasAt(s, i, LiteralText(ps) + [QUOTE])
    ensures HasAt(s, i, PieceText(ps[0])) && HasAt(s, i + |PieceText(ps[0])|, LiteralText(ps[1..]) + [QUOTE])
    ensures |LiteralText(ps)| == |PieceText(ps[0])| + |LiteralText(ps[1..])|
  {
    hide PieceText;
    ConcatAssoc(PieceText(ps[0]), LiteralText(ps[1..]), [QUOTE]);
    HasAtConcat(s, i, PieceText(ps[0]), LiteralText(ps[1..]) + [QUOTE]);
  }

  lemma {:induction false} PieceBytes(s: bytes, i: nat, p: Piece)
    requires PieceOk(p) && HasAt(s, i, PieceText(p))
    ensures At(s, i) != 0 && At(s, i) != QUOTE && i + |PieceText(p)| <= |s|
    ensures p.Raw? ==> s[i] == p.c
    ensures p.Short? ==> s[i] == BACKSLASH && s[i + 1] == p.c
    ensures p.Uni? ==> s[i] == BACKSLASH && s[i + 1] == 117 && Hex4(s, i + 2) == Unit(p)
    ensures p.Uni? ==> HexValue(s[i + 2]).Some? && HexValue(s[i + 3]).Some? && HexValue(s[i + 4]).Some? && HexValue(s[i + 5]).Some?
  {
    HasAtBytes(s, i, PieceText(p));
    var t := PieceText(p);
    assert s[i + 0] == t[0];
    if !p.Raw? { assert s[i + 1] == t[1]; }
    if p.Uni? {
      assert s[i + 2] == t[2] == p.h[0] && s[i + 3] == t[3] == p.h[1];
      assert s[i + 4] == t[4] == p.h[2] && s[i + 5] == t[5] == p.h[3];
    }
  }

  /** The first pass over one character. */
  lemma {:induction false} CountPiece(s: bytes, i: nat, p: Piece, n: nat, end: nat)
    requires PieceOk(p) && HasAt(s, i, PieceText(p))
    requires CountChars(s, i + |PieceText(p)|) == Done(n, end)
    ensures CountChars(s, i) == Done(n + if p.Uni? then 5 else 1, end)
  {
    hide CountChars, HasAt, Unit, Hex4;
    PieceBytes(s, i, p);
    match p
    case Raw(c) => CountOne(s, i, n, end);
    case Short(c) => CountTwo(s, i, n, end);
    case Uni(h) =>
      CountOne(s, i + 5, n, end);
      CountOne(s, i + 4, n + 1, end);
      CountOne(s, i + 3, n + 2, end);
      CountOne(s, i + 2, n + 3, end);
      CountTwo(s, i, n + 4, end);
  }

  lemma {:induction false} CountLiteral(s: bytes, i: nat, ps: seq<Piece>)
    requires AllOk(ps) && HasAt(s, i, LiteralText(ps) + [QUOTE])
    ensures CountChars(s, i) == Done(Weight(ps), i + |LiteralText(ps)|)
    decreases |ps|
  {
    hide PieceText, PieceOk, CountChars;
    if ps == [] {
      HasAtByte(s, i, [] + [QUOTE], 0);
      CountStops(s, i);
    } else {
      LiteralParts(s, i, ps);
      assert PieceOk(ps[0]);
      CountLiteral(s, i + |PieceText(ps[0])|, ps[1..]);
      CountPiece(s, i, ps[0], Weight(ps[1..]), i + |LiteralText(ps)|);
    }
  }

  /** The byte behind a literal's first character, when it could continue a surrogate pair. */
  lemma {:induction false} NoEscapeBehind(s: bytes, i: nat, ps: seq<Piece>)
    requires AllOk(ps) && HasAt(s, i, LiteralText(ps) + [QUOTE]) && (ps != [] ==> !ps[0].Uni?)
    ensures At(s, i) != BACKSLASH || At(s, i + 1) != 117
  {
    if ps == [] {
      HasAtByte(s, i, [] + [QUOTE], 0);
    } else {
      hide LiteralText, HasAt;
      LiteralParts(s, i, ps);
      assert PieceOk(ps[0]);
      PieceBytes(s, i, ps[0]);
    }
  }

  lemma {:induction false} ReadAlone(s: bytes, i: nat, ps: seq<Piece>)
    requires ps != [] && AllOk(ps) && HasAt(s, i, LiteralText(ps) + [QUOTE]) && !Pairs(ps) && !Mismatch(ps)
    ensures i + |PieceText(ps[0])| <= |s| && At(s, i) != 0 && s[i] != QUOTE
    ensures if s[i] == BACKSLASH then UnescapeAt(s, i) == (Alone(ps[0]), i + |PieceText(ps[0])|)
            else Alone(ps[0]) == [s[i]] && |PieceText(ps[0])| == 1
  {
    hide LiteralText, HasAt, Hex4, Utf8;
    LiteralParts(s, i, ps);
    var p := ps[0];
    assert PieceOk(p);
    PieceBytes(s, i, p);
    if p.Uni? {
      assert |PieceText(p)| == 6;
      if HighSurrogate(Unit(p)) {
        NoEscapeBehind(s, i + 6, ps[1..]);
      }
    }
  }

  lemma {:induction false} ReadTwo(s: bytes, i: nat, ps: seq<Piece>)
    requires AllOk(ps) && HasAt(s, i, LiteralText(ps) + [QUOTE]) && (Pairs(ps) || Mismatch(ps))
    ensures i + 12 <= |s| && At(s, i) != 0 && s[i] == BACKSLASH
    ensures |PieceText(ps[0])| == |PieceText(ps[1])| == 6
    ensures UnescapeAt(s, i) == (if Pairs(ps) then PairBytes(ps) else [], i + 12)
    ensures HasAt(s, i + 12, LiteralText(ps[2..]) + [QUOTE]) && |LiteralText(ps)| == 12 + |LiteralText(ps[2..])|
  {
    hide LiteralText, HasAt, Hex4, Utf8, Combine;
    LiteralParts(s, i, ps);
    LiteralParts(s, i + 6, ps[1..]);
    assert ps[1..][1..] == ps[2..];
    assert PieceOk(ps[0]) && PieceOk(ps[1]);
    PieceBytes(s, i, ps[0]);
    PieceBytes(s, i + 6, ps[1]);
  }

  lemma {:induction false} ReadStep(s: bytes, i: nat, out: bytes, next: nat)
    requires i < |s| && s[i] != 0 && s[i] != QUOTE && next <= |s| && i < next
    requires if s[i] == BACKSLASH then UnescapeAt(s, i) == (out, next) else out == [s[i]] && next == i + 1
    ensures var r := ReadChars(s, next); r.Done? ==> ReadChars(s, i) == Done(out + r.value, r.end)
  {
    hide UnescapeAt;
  }

  /** The second pass stops at the quote that ends the literal, having written `Decoded`. */
  lemma {:induction false} ReadLiteral(s: bytes, i: nat, ps: seq<Piece>)
    requires AllOk(ps) && HasAt(s, i, LiteralText(ps) + [QUOTE])
    ensures ReadChars(s, i) == Done(Decoded(ps), i + |LiteralText(ps)|)
    decreases |ps|
  {
    hide ReadChars, UnescapeAt, PieceText, Alone, PairBytes, PieceOk, HasAt, Unit;
    if ps == [] {
      QuoteAt(s, i);
      CountStops(s, i);
    } else if Pairs(ps) || Mismatch(ps) {
      ReadTwo(s, i, ps);
      ReadLiteral(s, i + 12, ps[2..]);
      ReadStep(s, i, if Pairs(ps) then PairBytes(ps) else [], i + 12);
      assert [] + Decoded(ps[2..]) == Decoded(ps[2..]);
    } else {
      ReadAlone(s, i, ps);
      LiteralParts(s, i, ps);
      PieceSize(ps[0]);
      ReadLiteral(s, i + |PieceText(ps[0])|, ps[1..]);
      ReadStep(s, i, Alone(ps[0]), i + |PieceText(ps[0])|);
    }
  }

  lemma {:induction false} PieceSize(p: Piece)
    ensures |PieceText(p)| > 0
  {
  }

  lemma {:induction false} QuoteAt(s: bytes, i: nat)
    requires HasAt(s, i, LiteralText([]) + [QUOTE])
    ensures i < |s| && s[i] == QUOTE
  {
    HasAtByte(s, i, [] + [QUOTE], 0);
  }

  lemma {:induction false} Utf8Size(u: nat)
    requires u <= 0x10FFFF
    ensures |Utf8(u)| <= 4 && (u <= 0xFFFF ==> |Utf8(u)| <= 3)
  {
  }

  /** The second pass writes no more than the first pass counted. */
  lemma {:induction false} DecodedFits(ps: seq<Piece>)
    requires AllOk(ps)
    ensures |Decoded(ps)| <= Weight(ps)
    decreases |ps|
  {
    hide Unit, Utf8, Combine;
    if ps != [] {
      assert PieceOk(ps[0]);
      if Pairs(ps) || Mismatch(ps) {
        assert Weight(ps) == 5 + Weight(ps[1..]) && Weight(ps[1..]) == 5 + Weight(ps[1..][1..]);
        assert ps[1..][1..] == ps[2..];
        DecodedFits(ps[2..]);
        if Pairs(ps) {
          CombineRange(Unit(ps[0]), Unit(ps[1]));
          Utf8Size(Combine(Unit(ps[0]), Unit(ps[1])));
        }
      } else {
        DecodedFits(ps[1..]);
        if ps[0].Uni? { Utf8Size(Unit(ps[0])); }
      }
    }
  }

  /** Both passes over a well-formed literal stop at its closing quote, the second one writes no
      more than the first one counted, and the result is `Decoded`. */
  lemma {:induction false} ParseLiteral(s: bytes, i: nat, ps: seq<Piece>)
    requires AllOk(ps) && HasAt(s, i, [QUOTE] + (LiteralText(ps) + [QUOTE]))
    ensures var e := i + 1 + |LiteralText(ps)|;
            && CountChars(s, i + 1) == Done(Weight(ps), e)
            && ReadChars(s, i + 1) == Done(Decoded(ps), e)
            && |Decoded(ps)| <= Weight(ps)
            && ParseString(s, i) == Done(Decoded(ps), e + 1)
  {
    hide CountChars, ReadChars, LiteralText, Decoded, AllOk;
    HasAtConcat(s, i, [QUOTE], LiteralText(ps) + [QUOTE]);
    HasAtByte(s, i, [QUOTE], 0);
    HasAtConcat(s, i + 1, LiteralText(ps), [QUOTE]);
    HasAtByte(s, i + 1 + |LiteralText(ps)|, [QUOTE], 0);
    CountLiteral(s, i + 1, ps);
    ReadLiteral(s, i + 1, ps);
    DecodedFits(ps);
  }

  // ------------------------------------------------------------ what is lost

  /** What the escape taken for a low half would have stood for. */
  function Swallowed(ps: seq<Piece>): bytes
    requires AllOk(ps) && Mismatch(ps)
  {
    if Pairs(ps[1..]) then PairBytes(ps[1..]) else Alone(ps[1])
  }

  /** Every escape taken for a low half that is not one stands for nothing by itself: it is \u0000
      or a high surrogate without its own low half. */
  predicate Lossless(ps: seq<Piece>)
    requires AllOk(ps)
    decreases |ps|
  {
    if ps == [] then true
    else if Pairs(ps) then Lossless(ps[2..])
    else if Mismatch(ps) then
      (Unit(ps[1]) == 0 || (HighSurrogate(Unit(ps[1])) && !Pairs(ps[1..]))) && Lossless(ps[2..])
    else Lossless(ps[1..])
  }

  lemma {:induction false} Utf8Some(u: nat)
    requires u <= 0x10FFFF
    ensures |Utf8(u)| > 0
  {
  }

  lemma {:induction false} SwallowedEmpty(ps: seq<Piece>)
    requires AllOk(ps) && Mismatch(ps)
    ensures Swallowed(ps) == [] <==> Unit(ps[1]) == 0 || (HighSurrogate(Unit(ps[1])) && !Pairs(ps[1..]))
  {
    hide Unit, Utf8, Combine;
    Utf8Some(Unit(ps[1]));
    if Pairs(ps[1..]) {
      CombineRange(Unit(ps[1]), Unit(ps[2]));
      Utf8Some(Combine(Unit(ps[1]), Unit(ps[2])));
    }
  }

  lemma {:induction false} MeaningOfMismatch(ps: seq<Piece>)
    requires AllOk(ps) && Mismatch(ps)
    ensures Meaning(ps) == Swallowed(ps) + Meaning(ps[2..])
  {
    hide Unit, Utf8, Combine, PairBytes;
    assert Alone(ps[0]) == [];
    assert Meaning(ps) == Meaning(ps[1..]);
    assert ps[1..][1..] == ps[2..];
    if Pairs(ps[1..]) {
      assert ps[1..][2..] == ps[3..] == ps[2..][1..];
      assert !Pairs(ps[2..]) && Alone(ps[2]) == [];
      assert Meaning(ps[2..]) == Meaning(ps[3..]);
    }
  }

  lemma {:induction false} DecodedShorter(ps: seq<Piece>)
    requires AllOk(ps)
    ensures |Decoded(ps)| <= |Meaning(ps)|
    decreases |ps|
  {
    hide Unit, Alone, PairBytes, Swallowed, PieceOk;
    if ps != [] {
      if Pairs(ps) {
        DecodedShorter(ps[2..]);
      } else if Mismatch(ps) {
        MeaningOfMismatch(ps);
        DecodedShorter(ps[2..]);
      } else {
        DecodedShorter(ps[1..]);
      }
    }
  }

  lemma {:induction false} SamePrefix(p: bytes, a: bytes, b: bytes)
    ensures p + a == p + b <==> a == b
  {
    assert (p + a)[|p|..] == a && (p + b)[|p|..] == b;
  }

  lemma {:induction false} DecodesMismatchExactly(ps: seq<Piece>)
    requires AllOk(ps) && Mismatch(ps)
    requires Decoded(ps[2..]) == Meaning(ps[2..]) <==> Lossless(ps[2..])
    ensures Decoded(ps) == Meaning(ps) <==> Lossless(ps)
  {
    hide Alone, PairBytes, Swallowed, PieceOk, Unit, Meaning;
    MeaningOfMismatch(ps);
    SwallowedEmpty(ps);
    DecodedShorter(ps[2..]);
    if Swallowed(ps) == [] { assert [] + Meaning(ps[2..]) == Meaning(ps[2..]); }
  }

  /** The parser's text is the text the literal stands for exactly when no mismatched escape behind
      a high surrogate stood for something. */
  lemma {:induction false} DecodesExactly(ps: seq<Piece>)
    requires AllOk(ps)
    ensures Decoded(ps) == Meaning(ps) <==> Lossless(ps)
    decreases |ps|
  {
    hide Unit, Alone, PairBytes, PieceOk;
    if ps != [] {
      if Pairs(ps) {
        DecodesExactly(ps[2..]);
        SamePrefix(PairBytes(ps), Decoded(ps[2..]), Meaning(ps[2..]));
      } else if Mismatch(ps) {
        DecodesExactly(ps[2..]);
        DecodesMismatchExactly(ps);
      } else {
        DecodesExactly(ps[1..]);
        SamePrefix(Alone(ps[0]), Decoded(ps[1..]), Meaning(ps[1..]));
      }
    }
  }

  /** The literal \uD800\u0041 stands for the letter A and is parsed as the empty text. */
  lemma {:induction false} SwallowedLetter() returns (ps: seq<Piece>)
    ensures AllOk(ps) && LiteralText(ps) == [92, 117, 68, 56, 48, 48, 92, 117, 48, 48, 52, 49]
    ensures Meaning(ps) == [65] && Decoded(ps) == []
  {
    var hi, a := Uni([68, 56, 48, 48]), Uni([48, 48, 52, 49]);
    ps := [hi, a];
    assert ps[1..] == [a] && ps[2..] == [] && [a][1..] == [];
    assert PieceOk(hi) && PieceOk(a);
    assert Unit(hi) == 0xD800 && Unit(a) == 65;
    assert LiteralText([a]) == PieceText(a);
    assert Alone(a) == [65];
    assert Meaning([a]) == Alone(a) + Meaning([]);
    assert Meaning(ps) == Alone(hi) + Meaning([a]);
  }

  // ------------------------------------------------------------ UTF-8 and UTF-16

  predicate Tail(b: byte) { 0x80 <= b <= 0xBF }

  predicate ScalarValue(u: nat) { u <= 0x10FFFF && !HighSurrogate(u) && !LowSurrogate(u) }

  /** The code point encoded by a byte string, by the syntax of section 4 of RFC 3629. */
  function FromUtf8(b: bytes): Option<nat> {
    if |b| == 1 && b[0] <= 0x7F then Some(b[0])
    else if |b| == 2 && 0xC2 <= b[0] <= 0xDF && Tail(b[1]) then Some((b[0] as int - 0xC0) * 64 + (b[1] as int - 0x80))
    else if |b| == 3 && 0xE0 <= b[0] <= 0xEF && Tail(b[1]) && Tail(b[2])
      && (b[0] == 0xE0 ==> b[1] >= 0xA0) && (b[0] == 0xED ==> b[1] <= 0x9F) then
      Some((b[0] as int - 0xE0) * 4096 + (b[1] as int - 0x80) * 64 + (b[2] as int - 0x80))
    else if |b| == 4 && 0xF0 <= b[0] <= 0xF4 && Tail(b[1]) && Tail(b[2]) && Tail(b[3])
      && (b[0] == 0xF0 ==> b[1] >= 0x90) && (b[0] == 0xF4 ==> b[1] <= 0x8F) then
      Some((b[0] as int - 0xF0) * 262144 + (b[1] as int - 0x80) * 4096 + (b[2] as int - 0x80) * 64 + (b[3] as int - 0x80))
    else None
  }

  /** The halves of section 2.1 of RFC 2781. */
  function HighHalf(u: nat): nat
    requires 0x10000 <= u <= 0x10FFFF
  {
    0xD800 + (u - 0x10000) / 0x400
  }

  function LowHalf(u: nat): nat
    requires 0x10000 <= u <= 0x10FFFF
  {
    0xDC00 + (u - 0x10000) % 0x400
  }

  /** The bytes written for a code point are its well-formed UTF-8. */
  lemma {:induction false} Utf8WellFormed(u: nat)
    requires ScalarValue(u)
    ensures FromUtf8(Utf8(u)) == Some(u)
  {
    var b := Utf8(u);
    if u >= 0x10000 {
      assert u / 64 / 64 == u / 4096 && u / 4096 / 64 == u / 262144;
    } else if u >= 0x800 {
      assert u / 64 / 64 == u / 4096;
    }
  }

  /** Joining the two halves of a code point gives it back, and gives nothing else. */
  lemma {:induction false} CombineHalves(u: nat, hi: nat, lo: nat)
    requires 0x10000 <= u <= 0x10FFFF && HighSurrogate(hi) && LowSurrogate(lo)
    ensures Combine(hi, lo) == u <==> hi == HighHalf(u) && lo == LowHalf(u)
  {
    assert hi % 0x400 == hi - 0xD800 && lo % 0x400 == lo - 0xDC00;
  }

  /** A code point written as one or two escapes is parsed as its UTF-8. */
  lemma {:induction false} EscapedCodePoint(u: nat, ps: seq<Piece>)
    requires ScalarValue(u) && u != 0 && AllOk(ps)
    requires if u < 0x10000 then |ps| == 1 && ps[0].Uni? && Unit(ps[0]) == u
             else |ps| == 2 && ps[0].Uni? && ps[1].Uni? && Unit(ps[0]) == HighHalf(u) && Unit(ps[1]) == LowHalf(u)
    ensures Decoded(ps) == Utf8(u) && FromUtf8(Decoded(ps)) == Some(u)
  {
    hide Unit, FromUtf8, Utf8;
    Utf8WellFormed(u);
    if u < 0x10000 {
      assert ps[1..] == [];
      assert Decoded(ps) == Alone(ps[0]) + Decoded([]);
    } else {
      assert ps[2..] == [];
      CombineHalves(u, HighHalf(u), LowHalf(u));
      assert Pairs(ps) && Decoded(ps) == PairBytes(ps) + Decoded([]);
    }
  }
}
