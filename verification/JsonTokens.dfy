/** The minifier token by token: which parts of a text it takes out, and that it keeps all others. */
module JsonTokens {
  import opened Bytes
  import opened JsonText
  import opened JsonParse
  import opened JsonMinify

  // ------------------------------------------------------------ texts behind other texts

  lemma {:induction false} AtBehind(p: bytes, t: bytes, i: nat)
    ensures At(p + t, |p| + i) == At(t, i)
  {
  }

  lemma {:induction false} LineBehind(p: bytes, t: bytes, i: nat)
    requires i <= |t|
    ensures LineEnd(p + t, |p| + i) == |p| + LineEnd(t, i)
    decreases |t| - i
  {
    if i < |t| && t[i] != 0 && t[i] != NEWLINE { LineBehind(p, t, i + 1); }
  }

  lemma {:induction false} BlockBehind(p: bytes, t: bytes, i: nat)
    requires i <= |t|
    ensures BlockEnd(p + t, |p| + i) == |p| + BlockEnd(t, i)
    decreases |t| - i
  {
    AtBehind(p, t, i + 1);
    if i < |t| && t[i] != 0 && !(t[i] == STAR && At(t, i + 1) == SLASH) { BlockBehind(p, t, i + 1); }
  }

  lemma {:induction false} StringBehind(p: bytes, t: bytes, i: nat)
    requires i <= |t|
    ensures var e, r := StringEnd(t, i), StringEnd(p + t, |p| + i);
            r == if e.Some? then Some(|p| + e.value) else None
    decreases |t| - i
  {
    AtBehind(p, t, i);
    AtBehind(p, t, i + 1);
    if At(t, i) != 0 && t[i] != QUOTE {
      if t[i] == BACKSLASH {
        if At(t, i + 1) != 0 { StringBehind(p, t, i + 2); }
      } else {
        StringBehind(p, t, i + 1);
      }
    }
  }

  lemma {:induction false} FirstBehind(p: bytes, t: bytes, i: nat)
    requires i < |t|
    ensures (p + t)[|p| + i] == t[i] && At(p + t, |p| + i) == At(t, i) && At(p + t, |p| + i + 1) == At(t, i + 1)
  {
  }

  /** What has been read does not matter for the rest. */
  lemma {:induction false} MinifiedBehind(p: bytes, t: bytes, i: nat)
    requires i <= |t|
    ensures Minified(p + t, |p| + i) == Minified(t, i)
    decreases |t| - i
  {
    hide LineEnd, BlockEnd, StringEnd, Prepend, At, Minified;
    var s, k := p + t, |p| + i;
    EndsMinified(s, k);
    EndsMinified(t, i);
    AtBehind(p, t, i);
    if At(t, i) != 0 {
      InText(t, i);
      FirstBehind(p, t, i);
      MinifiedIs(s, k);
      MinifiedIs(t, i);
      if IsBlank(t[i]) {
        MinifiedBehind(p, t, i + 1);
      } else if t[i] == SLASH && At(t, i + 1) == SLASH {
        LineBehind(p, t, i + 1);
        MinifiedBehind(p, t, LineEnd(t, i + 1));
      } else if t[i] == SLASH && At(t, i + 1) == STAR {
        BlockBehind(p, t, i + 1);
        if BlockEnd(t, i + 1) + 2 <= |t| { MinifiedBehind(p, t, BlockEnd(t, i + 1) + 2); }
      } else if t[i] == QUOTE {
        StringBehind(p, t, i + 1);
        var e := StringEnd(t, i + 1);
        if e.Some? {
          MinifiedBehind(p, t, e.value + 1);
          assert s[k..|p| + e.value + 1] == t[i..e.value + 1];
        }
      } else {
        MinifiedBehind(p, t, i + 1);
      }
    }
  }

  lemma {:induction false} InText(s: bytes, i: nat)
    requires At(s, i) != 0
    ensures i < |s| && s[i] == At(s, i)
  {
  }

  lemma {:induction false} EndsMinified(s: bytes, i: nat)
    requires i <= |s|
    ensures At(s, i) == 0 ==> Minified(s, i) == Some([])
  {
  }

  /** One turn of the minifier. */
  lemma {:induction false} MinifiedIs(s: bytes, i: nat)
    requires i < |s| && At(s, i) != 0
    ensures Minified(s, i) ==
            if IsBlank(s[i]) then Minified(s, i + 1)
            else if s[i] == SLASH && At(s, i + 1) == SLASH then Minified(s, LineEnd(s, i + 1))
            else if s[i] == SLASH && At(s, i + 1) == STAR then
              if BlockEnd(s, i + 1) + 2 > |s| then None else Minified(s, BlockEnd(s, i + 1) + 2)
            else if s[i] == QUOTE then
              if StringEnd(s, i + 1).None? then None
              else Prepend(s[i..StringEnd(s, i + 1).value + 1], Minified(s, StringEnd(s, i + 1).value + 1))
            else Prepend([s[i]], Minified(s, i + 1))
  {
    hide LineEnd, BlockEnd, StringEnd, Prepend;
  }

  // ------------------------------------------------------------ what is taken out

  /** Blanks, tabs, carriage returns and newlines. */
  lemma {:induction false} BlankGoes(c: byte, t: bytes)
    requires c == 32 || c == 9 || c == 13 || c == 10
    ensures Minified([c] + t, 0) == Minified(t, 0)
  {
    MinifiedBehind([c], t, 0);
  }

  lemma {:induction false} LineRuns(s: bytes, i: nat, e: nat)
    requires i <= e < |s| && s[e] == 10 && forall k :: i <= k < e ==> s[k] != 0 && s[k] != 10
    ensures LineEnd(s, i) == e
    decreases e - i
  {
    if i < e { LineRuns(s, i + 1, e); }
  }

  /** A comment to the end of its line. */
  lemma {:induction false} LineGoes(c: bytes, t: bytes)
    requires forall k :: 0 <= k < |c| ==> c[k] != 0 && c[k] != 10
    ensures Minified([47, 47] + c + [10] + t, 0) == Minified(t, 0)
  {
    hide Minified;
    var p := [47, 47] + c;
    var s := p + [10] + t;
    LineRuns(s, 1, |p|);
    assert Minified(s, 0) == Minified(s, |p|) by { LineStep(s); }
    assert s == p + ([10] + t);
    MinifiedBehind(p, [10] + t, 0);
    BlankGoes(10, t);
  }

  lemma {:induction false} LineStep(s: bytes)
    requires |s| >= 2 && s[0] == 47 && s[1] == 47
    ensures Minified(s, 0) == Minified(s, LineEnd(s, 1))
  {
    hide LineEnd;
  }

  lemma {:induction false} BlockRuns(s: bytes, i: nat, e: nat)
    requires i <= e && e + 1 < |s| && s[e] == 42 && s[e + 1] == 47
    requires forall k :: i <= k < e ==> s[k] != 0 && !(s[k] == 42 && s[k + 1] == 47)
    ensures BlockEnd(s, i) == e
    decreases e - i
  {
    if i < e { BlockRuns(s, i + 1, e); }
  }

  /** A comment from its opening to its closing mark. The star of the opening mark counts, so a comment
      must not begin with a slash. */
  lemma {:induction false} BlockGoes(c: bytes, t: bytes)
    requires forall k :: 0 <= k < |c| ==> c[k] != 0
    requires forall k :: 0 <= k < |c| && c[k] == 47 ==> k > 0 && c[k - 1] != 42
    ensures Minified([47, 42] + c + [42, 47] + t, 0) == Minified(t, 0)
  {
    hide Minified;
    var p := [47, 42] + c + [42, 47];
    var s, e := p + t, |c| + 2;
    forall k | 1 <= k < e ensures s[k] != 0 && !(s[k] == 42 && s[k + 1] == 47) {
      if k >= 2 { assert s[k] == c[k - 2]; }
      if k + 1 < e { assert s[k + 1] == c[k - 1]; }
    }
    BlockRuns(s, 1, e);
    BlockStep(s);
    MinifiedBehind(p, t, 0);
  }

  lemma {:induction false} BlockStep(s: bytes)
    requires |s| >= 2 && s[0] == 47 && s[1] == 42 && BlockEnd(s, 1) + 2 <= |s|
    ensures Minified(s, 0) == Minified(s, BlockEnd(s, 1) + 2)
  {
    hide BlockEnd;
  }

  // ------------------------------------------------------------ what is kept

  /** Quotes inside are escaped, and the text does not end in an open escape. */
  predicate Enclosed(c: bytes, i: nat)
    decreases |c| - i
  {
    if i >= |c| then i == |c|
    else if c[i] == 92 then i + 1 < |c| && c[i + 1] != 0 && Enclosed(c, i + 2)
    else c[i] != 34 && c[i] != 0 && Enclosed(c, i + 1)
  }

  lemma {:induction false} StringRuns(c: bytes, s: bytes, i: nat)
    requires i <= |c| && Enclosed(c, i) && |s| > |c| + 1 && s[|c| + 1] == 34 && s[1..|c| + 1] == c
    ensures StringEnd(s, i + 1) == Some(|c| + 1)
    decreases |c| - i
  {
    if i < |c| {
      assert s[i + 1] == s[1..|c| + 1][i];
      if c[i] == 92 {
        assert s[i + 2] == s[1..|c| + 1][i + 1];
        StringRuns(c, s, i + 2);
      } else {
        StringRuns(c, s, i + 1);
      }
    }
  }

  /** A string literal, blanks and comment marks inside it included. */
  lemma {:induction false} StringStays(c: bytes, t: bytes)
    requires Enclosed(c, 0)
    ensures Minified([34] + c + [34] + t, 0) == Prepend([34] + c + [34], Minified(t, 0))
  {
    hide Minified, Enclosed;
    var p := [34] + c + [34];
    var s := p + t;
    StringRuns(c, s, 0);
    StringTurn(s);
    assert s[0..|c| + 2] == p;
    MinifiedBehind(p, t, 0);
  }

  lemma {:induction false} StringTurn(s: bytes)
    requires s != [] && s[0] == 34 && StringEnd(s, 1).Some?
    ensures var e := StringEnd(s, 1).value; Minified(s, 0) == Prepend(s[0..e + 1], Minified(s, e + 1))
  {
    hide StringEnd, Prepend;
  }

  /** Every other byte, a slash that begins no comment included. */
  lemma {:induction false} ByteStays(c: byte, t: bytes)
    requires c != 0 && c != 34 && c != 32 && c != 9 && c != 13 && c != 10
    requires c == 47 ==> t == [] || (t[0] != 47 && t[0] != 42)
    ensures Minified([c] + t, 0) == Prepend([c], Minified(t, 0))
  {
    MinifiedBehind([c], t, 0);
  }
}
