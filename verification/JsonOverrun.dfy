/** Which texts keep the string parser inside its text and its allocation, told from their
    characters. */
module JsonOverrun {
  import opened Bytes
  import opened JsonText
  import opened JsonParse

  /** A character of a literal that neither ends it nor begins an escape. */
  predicate Plain(c: byte) { c != QUOTE && c != 0 && c != BACKSLASH }

  /** The four places behind a \u. */
  predicate PlainPlaces(s: bytes, i: nat) {
    i + 4 <= |s| && Plain(s[i]) && Plain(s[i + 1]) && Plain(s[i + 2]) && Plain(s[i + 3])
  }

  /** From here to the end of the literal no backslash is the last byte of the text, and the four places
      behind every \u lie in the literal. The literal need not be closed, nor its places hold digits. */
  predicate WholeEscapes(s: bytes, i: nat)
    requires i <= |s|
    decreases |s| - i
  {
    if At(s, i) == QUOTE || At(s, i) == 0 then true
    else if s[i] != BACKSLASH then WholeEscapes(s, i + 1)
    else if At(s, i + 1) == 117 then PlainPlaces(s, i + 2) && WholeEscapes(s, i + 6)
    else i + 2 <= |s| && WholeEscapes(s, i + 2)
  }

  /** Both passes stop at the same place and the second writes no more than the first counted. */
  predicate Stays(s: bytes, i: nat)
    requires i <= |s|
  {
    var c, r := CountChars(s, i), ReadChars(s, i);
    c.Done? && r.Done? && c.end == r.end && |r.value| <= c.value
  }

  /** Six characters counted for a \u and its places: five. */
  lemma {:induction false} CountUnicode(s: bytes, i: nat)
    requires i + 6 <= |s| && s[i] == BACKSLASH && s[i + 1] == 117 && PlainPlaces(s, i + 2)
    requires CountChars(s, i + 6).Done?
    ensures var c := CountChars(s, i + 6); CountChars(s, i) == Done(c.value + 5, c.end)
  {
    hide CountChars;
    var c := CountChars(s, i + 6);
    CountOne(s, i + 5, c.value, c.end);
    CountOne(s, i + 4, c.value + 1, c.end);
    CountOne(s, i + 3, c.value + 2, c.end);
    CountOne(s, i + 2, c.value + 3, c.end);
    CountTwo(s, i, c.value + 4, c.end);
  }

  lemma {:induction false} ReadEscapeStep(s: bytes, i: nat)
    requires i < |s| && s[i] == BACKSLASH && UnescapeAt(s, i).1 <= |s| && ReadChars(s, UnescapeAt(s, i).1).Done?
    ensures var r := ReadChars(s, UnescapeAt(s, i).1);
            ReadChars(s, i) == Done(UnescapeAt(s, i).0 + r.value, r.end)
  {
    hide UnescapeAt;
  }

  /** A \u goes on behind its places, or behind those of a second \u. */
  lemma {:induction false} UnicodeNext(s: bytes, i: nat)
    requires At(s, i + 1) == 117
    ensures var next := UnescapeAt(s, i).1;
            next == i + 6 || (next == i + 12 && At(s, i + 6) == BACKSLASH && At(s, i + 7) == 117)
  {
    hide Hex4, Utf8, Combine;
  }

  lemma {:induction false} WholeStays(s: bytes, i: nat)
    requires i <= |s| && WholeEscapes(s, i)
    ensures Stays(s, i)
    decreases |s| - i
  {
    hide UnescapeAt;
    if At(s, i) != QUOTE && At(s, i) != 0 {
      if s[i] != BACKSLASH {
        WholeStays(s, i + 1);
      } else if At(s, i + 1) == 117 {
        UnicodeStays(s, i);
      } else {
        WholeStays(s, i + 2);
        ShortNext(s, i);
      }
    }
  }

  lemma {:induction false} ShortNext(s: bytes, i: nat)
    requires At(s, i + 1) != 117
    ensures |UnescapeAt(s, i).0| == 1 && UnescapeAt(s, i).1 == i + 2
  {
  }

  lemma {:induction false} UnicodeStays(s: bytes, i: nat)
    requires i < |s| && s[i] == BACKSLASH && At(s, i + 1) == 117 && WholeEscapes(s, i)
    ensures Stays(s, i)
    decreases |s| - i, 0
  {
    hide UnescapeAt, CountChars, ReadChars;
    var next := UnescapeAt(s, i).1;
    UnicodeNext(s, i);
    if next == i + 12 {
      WholeStays(s, i + 12);
      CountUnicode(s, i + 6);
    } else {
      WholeStays(s, i + 6);
    }
    CountUnicode(s, i);
    ReadEscapeStep(s, i);
  }

  // ------------------------------------------------------------ whole texts

  /** Escapes are whole behind every quote of the text. */
  predicate WholeText(s: bytes) { forall i :: 0 <= i < |s| && s[i] == QUOTE ==> WholeEscapes(s, i + 1) }

  lemma {:induction false} StringStays(s: bytes, i: nat)
    requires i <= |s| && WholeText(s)
    ensures !ParseString(s, i).Overrun?
  {
    hide CountChars, ReadChars, WholeEscapes;
    if At(s, i) == QUOTE { WholeStays(s, i + 1); }
  }

  lemma {:induction false} ValueStays(s: bytes, i: nat)
    requires i <= |s| && WholeText(s)
    ensures !ParseValue(s, i).Overrun?
    decreases |s| - i, 0
  {
    hide WholeText, ParseString, ParseNumber, Skip, HasAt;
    StringStays(s, i);
    if At(s, i) == 91 {
      ItemsStay(s, Skip(s, i + 1));
    } else if At(s, i) == 123 {
      MembersStay(s, Skip(s, i + 1));
    }
  }

  lemma {:induction false} ItemsStay(s: bytes, i: nat)
    requires i <= |s| && WholeText(s)
    ensures !ParseItems(s, i).Overrun?
    decreases |s| - i, 1
  {
    hide WholeText, ParseValue, Skip;
    ValueStays(s, Skip(s, i));
    var r := ParseValue(s, Skip(s, i));
    if r.Done? && At(s, Skip(s, r.end)) == COMMA { ItemsStay(s, Skip(s, r.end) + 1); }
  }

  lemma {:induction false} MembersStay(s: bytes, i: nat)
    requires i <= |s| && WholeText(s)
    ensures !ParseMembers(s, i).Overrun?
    decreases |s| - i, 1
  {
    hide WholeText, ParseValue, ParseString, Skip;
    StringStays(s, Skip(s, i));
    var n := ParseName(s, i);
    if n.Done? {
      ValueStays(s, Skip(s, n.end));
      var r := ParseValue(s, Skip(s, n.end));
      if r.Done? && At(s, Skip(s, r.end)) == COMMA { MembersStay(s, Skip(s, r.end) + 1); }
    }
  }

  /** The parser stays inside every such text and its allocations, whether or not it accepts the text. */
  lemma {:induction false} TextStays(s: bytes, strict: bool)
    requires WholeText(s)
    ensures !ParseText(s, strict).Overrun?
  {
    hide WholeText, ParseValue, Skip;
    ValueStays(s, Skip(s, 0));
  }

  lemma {:induction false} LiteralOverruns(s: bytes, strict: bool)
    requires s != [] && s[0] == QUOTE && ParseString(s, 0).Overrun?
    ensures ParseText(s, strict).Overrun?
  {
    hide ParseString;
    assert Skip(s, 0) == 0;
  }

  /** A backslash at the end of the text, and a \u that runs over the closing quote. */
  lemma {:induction false} Overruns(strict: bool)
    ensures ParseText([QUOTE, BACKSLASH], strict).Overrun?
    ensures ParseText([QUOTE, BACKSLASH, 117, QUOTE, 97, 97, 97, 97, 97], strict).Overrun?
  {
    hide ParseText;
    LiteralOverruns([QUOTE, BACKSLASH], strict);
    var s := [QUOTE, BACKSLASH, 117, QUOTE, 97, 97, 97, 97, 97];
    assert CountChars(s, 1) == Done(1, 3) by { CountStops(s, 3); }
    assert UnescapeAt(s, 1) == ([], 7);
    assert ReadChars(s, 9) == Done([], 9);
    assert ReadChars(s, 8) == Done([s[8]] + [], 9);
    assert ReadChars(s, 7) == Done([s[7]] + ([s[8]] + []), 9);
    ReadEscapeStep(s, 1);
    LiteralOverruns(s, strict);
  }
}
