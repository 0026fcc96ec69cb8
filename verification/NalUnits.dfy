/** The player's side of a frame: the split of an Annex B frame into NAL units, the player's
    key-frame flag, and the length-prefixed packet sent over RTMP. */
module NalUnits {
  import opened Bytes
  import opened AnnexB

  /** One entry of naluList: where the unit starts in the frame's memory, its length, and the
      type read from its header. */
  datatype Nalu = Nalu(start: nat, len: nat, typ: int)

  /** The unit of `len` bytes that starts at `start`. */
  function NaluAt(mem: bytes, start: nat, len: nat): Nalu
    requires start < |mem|
  {
    Nalu(start, len, NalType(mem[start]))
  }

  predicate InMem(mem: bytes, u: Nalu) { u.start < |mem| && u.start + u.len <= |mem| }

  function UnitBytes(mem: bytes, u: Nalu): bytes
    requires InMem(mem, u)
  {
    mem[u.start..u.start + u.len]
  }

  // ------------------------------------------------------------ the scanner

  /** The rest of the scan: position `i`, with the unit that began at `start` still open. */
  function ScanFrom(mem: bytes, i: nat, end: nat, start: nat): (us: seq<Nalu>)
    requires end + 4 <= |mem| && start < i <= end + 4
    decreases end + 5 - i
  {
    if i >= end then [NaluAt(mem, start, i - start)]
    else if CodeLen(mem, i) == 0 then ScanFrom(mem, i + 1, end, start)
    else [NaluAt(mem, start, i - start)] + ScanFrom(mem, i + CodeLen(mem, i) + 1, end, i + CodeLen(mem, i))
  }

  /** The list that the scan of a frame with a four-byte start code at its front builds. */
  function Scan(mem: bytes, size: nat): (us: seq<Nalu>)
    requires size + 4 <= |mem| && 0 < size
    requires CodeLen(mem, 0) == 4
  {
    ScanFrom(mem, 5, size, 4)
  }

  lemma {:induction false} ScanInMem(mem: bytes, i: nat, end: nat, start: nat, k: nat)
    requires end + 4 <= |mem| && start < i <= end + 4
    requires k < |ScanFrom(mem, i, end, start)|
    ensures InMem(mem, ScanFrom(mem, i, end, start)[k])
    decreases end + 5 - i
  {
    if i < end {
      var n := CodeLen(mem, i);
      if n == 0 {
        ScanInMem(mem, i + 1, end, start, k);
      } else if k > 0 {
        ScanInMem(mem, i + n + 1, end, i + n, k - 1);
      }
    }
  }

  // ------------------------------------------------------------ Annex B encodings

  /** A unit behind its start code. */
  datatype Coded = Coded(long: bool, unit: bytes)

  function Code(c: Coded): bytes { if c.long then CODE4 else CODE3 }

  function Encode(cs: seq<Coded>): bytes {
    if cs == [] then [] else Code(cs[0]) + cs[0].unit + Encode(cs[1..])
  }

  /** Section 7.4.1 of ITU-T H.264: a unit is not empty, holds no start code and does not end
      in a zero byte. */
  predicate UnitOk(u: bytes) {
    && |u| > 0
    && u[|u| - 1] != 0
    && forall k :: 0 <= k && k + 3 <= |u| ==> !(u[k] == 0 && u[k + 1] == 0 && u[k + 2] == 1)
  }

  predicate AllUnitsOk(cs: seq<Coded>) { forall i :: 0 <= i < |cs| ==> UnitOk(cs[i].unit) }

  /** No start code is found inside a unit, wherever it lies and whatever follows. */
  lemma {:induction false} NoCodeInside(mem: bytes, p: nat, u: bytes, k: nat)
    requires HasAt(mem, p, u) && UnitOk(u) && k < |u| && p + |u| + 4 <= |mem|
    ensures CodeLen(mem, p + k) == 0
  {
    HasAtBytes(mem, p, u);
    assert mem[p + k] == u[k] && mem[p + (|u| - 1)] == u[|u| - 1];
    if k + 1 < |u| { assert mem[p + (k + 1)] == u[k + 1]; }
    if k + 2 < |u| { assert mem[p + (k + 2)] == u[k + 2]; }
    if k + 3 < |u| { assert mem[p + (k + 3)] == u[k + 3]; }
    if k + 4 <= |u| { assert !(u[k + 1] == 0 && u[k + 2] == 0 && u[k + 3] == 1); }
  }

  /** The scan walks through the open unit to its end. */
  lemma {:induction false} ScanThrough(mem: bytes, p: nat, u: bytes, k: nat, end: nat)
    requires HasAt(mem, p, u) && UnitOk(u) && 1 <= k <= |u|
    requires p + |u| <= end && end + 4 <= |mem|
    ensures ScanFrom(mem, p + k, end, p) == ScanFrom(mem, p + |u|, end, p)
    decreases |u| - k
  {
    if k < |u| {
      NoCodeInside(mem, p, u, k);
      ScanThrough(mem, p, u, k + 1, end);
    }
  }

  /** Where the units of an encoding lie that starts at position `p`. */
  function Places(cs: seq<Coded>, p: nat): (us: seq<Nalu>)
    requires AllUnitsOk(cs)
    ensures |us| == |cs|
  {
    if cs == [] then []
    else
      var q := p + |Code(cs[0])|;
      assert UnitOk(cs[0].unit);
      [Nalu(q, |cs[0].unit|, NalType(cs[0].unit[0]))] + Places(cs[1..], q + |cs[0].unit|)
  }

  lemma {:induction false} EncodeParts(mem: bytes, p: nat, cs: seq<Coded>)
    requires cs != [] && HasAt(mem, p, Encode(cs))
    ensures HasAt(mem, p, Code(cs[0]))
    ensures HasAt(mem, p + |Code(cs[0])|, cs[0].unit)
    ensures HasAt(mem, p + |Code(cs[0])| + |cs[0].unit|, Encode(cs[1..]))
    ensures |Encode(cs)| == |Code(cs[0])| + |cs[0].unit| + |Encode(cs[1..])|
  {
    HasAtConcat(mem, p, Code(cs[0]) + cs[0].unit, Encode(cs[1..]));
    HasAtConcat(mem, p, Code(cs[0]), cs[0].unit);
  }

  lemma {:induction false} CodeFound(mem: bytes, p: nat, c: Coded)
    requires HasAt(mem, p, Code(c)) && p + 4 <= |mem|
    ensures CodeLen(mem, p) == |Code(c)|
  {
    HasAtBytes(mem, p, Code(c));
    assert mem[p + 0] == Code(c)[0] && mem[p + 1] == Code(c)[1] && mem[p + 2] == Code(c)[2];
    if c.long { assert mem[p + 3] == Code(c)[3]; }
  }

  lemma {:induction false} ScanCode(mem: bytes, i: nat, end: nat, start: nat)
    requires end + 4 <= |mem| && start < i < end && CodeLen(mem, i) > 0
    ensures ScanFrom(mem, i, end, start) ==
            [NaluAt(mem, start, i - start)] + ScanFrom(mem, i + CodeLen(mem, i) + 1, end, i + CodeLen(mem, i))
  {
  }

  lemma {:induction false} CodeSize(c: Coded)
    ensures 3 <= |Code(c)| <= 4
  {
  }

  lemma {:induction false} PlacesStep(cs: seq<Coded>, p: nat)
    requires cs != [] && AllUnitsOk(cs)
    ensures UnitOk(cs[0].unit) && |cs[0].unit| > 0 && AllUnitsOk(cs[1..])
    ensures var q := p + |Code(cs[0])|;
            Places(cs, p) == [Nalu(q, |cs[0].unit|, NalType(cs[0].unit[0]))] + Places(cs[1..], q + |cs[0].unit|)
  {
    hide UnitOk, Code;
    assert UnitOk(cs[0].unit);
    UnitNotEmpty(cs[0].unit);
  }

  lemma {:induction false} UnitNotEmpty(u: bytes)
    requires UnitOk(u)
    ensures |u| > 0
  {
  }

  /** With the first unit of `cs` open, the scan finds the units of `cs` one after the other. */
  lemma {:induction false} ScanEncoded(mem: bytes, p: nat, cs: seq<Coded>)
    requires cs != [] && AllUnitsOk(cs) && HasAt(mem, p, Encode(cs))
    requires p + |Encode(cs)| + 4 <= |mem|
    ensures var q := p + |Code(cs[0])|;
            && |cs[0].unit| > 0 && q + 1 <= p + |Encode(cs)|
            && ScanFrom(mem, q + 1, p + |Encode(cs)|, q) == Places(cs, p)
    decreases |cs|
  {
    hide ScanFrom, Encode, Code, HasAt, CodeLen, Places, UnitOk, AllUnitsOk;
    var c, rest := cs[0], cs[1..];
    var q, end := p + |Code(c)|, p + |Encode(cs)|;
    PlacesStep(cs, p);
    EncodeParts(mem, p, cs);
    ScanThrough(mem, q, c.unit, 1, end);
    HasAtByte(mem, q, c.unit, 0);
    var r := q + |c.unit|;
    if rest == [] {
      ScanLast(mem, r, q);
      NoPlaces(r);
    } else {
      EncodeParts(mem, r, rest);
      CodeSize(rest[0]);
      CodeFound(mem, r, rest[0]);
      ScanCode(mem, r, end, q);
      ScanEncoded(mem, r, rest);
    }
  }

  lemma {:induction false} NoPlaces(p: nat)
    ensures Places([], p) == []
  {
  }

  lemma {:induction false} ScanLast(mem: bytes, end: nat, start: nat)
    requires end + 4 <= |mem| && start < end
    ensures Encode([]) == [] && ScanFrom(mem, end, end, start) == [NaluAt(mem, start, end - start)]
  {
  }

  /** The bytes behind a list of places. */
  predicate AllInMem(mem: bytes, us: seq<Nalu>) { forall i :: 0 <= i < |us| ==> InMem(mem, us[i]) }

  /** Whatever the frame holds, the units found in it lie in its memory. */
  lemma {:induction false} SplitInMem(mem: bytes, size: nat)
    requires size + 4 <= |mem| && 0 < size && CodeLen(mem, 0) == 4
    ensures AllInMem(mem, Scan(mem, size))
  {
    var us := Scan(mem, size);
    forall k | 0 <= k < |us| ensures InMem(mem, us[k]) { ScanInMem(mem, 5, size, 4, k); }
  }

  function Units(mem: bytes, us: seq<Nalu>): (r: seq<bytes>)
    requires AllInMem(mem, us)
    ensures |r| == |us|
  {
    seq(|us|, i requires 0 <= i < |us| => UnitBytes(mem, us[i]))
  }

  lemma {:induction false} LongFirst(mem: bytes, cs: seq<Coded>)
    requires cs != [] && cs[0].long && HasAt(mem, 0, Encode(cs)) && |Encode(cs)| + 4 <= |mem|
    ensures |Code(cs[0])| == 4 && |Encode(cs)| > 0 && CodeLen(mem, 0) == 4
  {
    EncodeParts(mem, 0, cs);
    CodeFound(mem, 0, cs[0]);
  }

  lemma {:induction false} PlacesUnits(mem: bytes, cs: seq<Coded>, p: nat, i: nat)
    requires HasAt(mem, p, Encode(cs)) && AllUnitsOk(cs) && i < |cs|
    ensures InMem(mem, Places(cs, p)[i]) && UnitBytes(mem, Places(cs, p)[i]) == cs[i].unit
    ensures Places(cs, p)[i].len == |cs[i].unit| && Places(cs, p)[i].typ == NalType(cs[i].unit[0])
    decreases |cs|
  {
    hide Encode, Code, Places, UnitOk;
    EncodeParts(mem, p, cs);
    PlacesStep(cs, p);
    UnitNotEmpty(cs[i].unit);
    var r := p + |Code(cs[0])| + |cs[0].unit|;
    if i > 0 {
      PlacesUnits(mem, cs[1..], r, i - 1);
    }
  }

  /** Splitting an Annex B encoding of well-formed units, with any mix of start codes after a
      four-byte first one and anything behind it, gives back exactly the units. */
  lemma {:induction false} SplitReturnsUnits(mem: bytes, cs: seq<Coded>)
    requires cs != [] && cs[0].long && AllUnitsOk(cs)
    requires HasAt(mem, 0, Encode(cs)) && |Encode(cs)| + 4 <= |mem|
    ensures |Encode(cs)| > 0 && CodeLen(mem, 0) == 4
    ensures var us := Scan(mem, |Encode(cs)|);
            && |us| == |cs| && AllInMem(mem, us)
            && forall i :: 0 <= i < |cs| ==> Units(mem, us)[i] == cs[i].unit && us[i].len == |cs[i].unit| && HasType(cs[i].unit[0], us[i].typ)
  {
    LongFirst(mem, cs);
    hide Encode, CodeLen, ScanFrom, UnitOk, Code, Places, HasAt, HasType, NalType;
    ScanEncoded(mem, 0, cs);
    var us := Places(cs, 0);
    forall i | 0 <= i < |cs|
      ensures InMem(mem, us[i]) && UnitBytes(mem, us[i]) == cs[i].unit && us[i].len == |cs[i].unit| && HasType(cs[i].unit[0], us[i].typ)
    {
      UnitNotEmpty(cs[i].unit);
      PlacesUnits(mem, cs, 0, i);
      TypeMeans(cs[i].unit[0], us[i].typ);
    }
  }

  // ------------------------------------------------------------ the key-frame flag

  /** Some unit of the list is an IDR slice. */
  predicate HasKey(us: seq<Nalu>) { exists i :: 0 <= i < |us| && us[i].typ == NAL_IDR }

  lemma {:induction false} HasKeyCons(u: Nalu, us: seq<Nalu>)
    ensures HasKey([u] + us) <==> u.typ == NAL_IDR || HasKey(us)
  {
    var vs := [u] + us;
    if u.typ == NAL_IDR {
      assert vs[0].typ == NAL_IDR;
    } else if HasKey(us) {
      var i :| 0 <= i < |us| && us[i].typ == NAL_IDR;
      assert vs[i + 1].typ == NAL_IDR;
    }
    if HasKey(vs) {
      var i :| 0 <= i < |vs| && vs[i].typ == NAL_IDR;
      if i > 0 { assert us[i - 1].typ == NAL_IDR; }
    }
  }

  lemma {:induction false} ScanHasKey(mem: bytes, i: nat, end: nat, start: nat)
    requires end + 4 <= |mem| && start < i <= end + 4
    ensures HasKey(ScanFrom(mem, i, end, start)) <==> NalType(mem[start]) == NAL_IDR || KeyScan(mem, i, end)
    decreases end + 5 - i
  {
    hide HasKey;
    if i >= end {
      HasKeyCons(NaluAt(mem, start, i - start), []);
      NoUnits();
      assert [NaluAt(mem, start, i - start)] + [] == ScanFrom(mem, i, end, start);
    } else {
      var n := CodeLen(mem, i);
      if n == 0 {
        ScanHasKey(mem, i + 1, end, start);
      } else {
        ScanHasKey(mem, i + n + 1, end, i + n);
        HasKeyCons(NaluAt(mem, start, i - start), ScanFrom(mem, i + n + 1, end, i + n));
      }
    }
  }

  lemma {:induction false} NoUnits()
    ensures !HasKey([])
  {
  }

  /** What ParseVideoData works on: the new list if the frame starts with a four-byte start
      code, else still the list of an earlier frame. */
  function ListAfter(before: seq<Nalu>, mem: bytes, size: nat): (us: seq<Nalu>)
    requires size + 4 <= |mem| && (CodeLen(mem, 0) == 4 ==> 0 < size)
  {
    if CodeLen(mem, 0) == 4 then Scan(mem, size) else before
  }

  /** The recorder's and the player's key-frame tests agree on every frame that begins with a
      four-byte start code. */
  lemma {:induction false} KeyTestsAgree(before: seq<Nalu>, mem: bytes, size: nat)
    requires size + 4 <= |mem| && 0 < size && CodeLen(mem, 0) == 4
    ensures HasKey(ListAfter(before, mem, size)) == KeyScan(mem, 0, size)
  {
    ScanHasKey(mem, 5, size, 4);
  }

  /** The list is one that some frame leaves behind. */
  ghost predicate LeftBehind(us: seq<Nalu>) { exists mem, size :: Leaves(mem, size, us) }

  predicate Leaves(mem: bytes, size: nat, us: seq<Nalu>) {
    size + 4 <= |mem| && 0 < size && CodeLen(mem, 0) == 4 && us == Scan(mem, size)
  }

  /** A frame of one unit, which is only a header. */
  lemma {:induction false} HeaderFrame(header: byte)
    ensures LeftBehind([Nalu(4, 1, NalType(header))])
  {
    assert Leaves([0, 0, 0, 1, header, 0, 0, 0, 0], 5, [Nalu(4, 1, NalType(header))]);
  }

  /** On other frames the player's answer is that of an earlier frame, so the tests agree
      whichever frame was split before if and only if the frame begins with a four-byte start code. */
  lemma {:induction false} KeyTestsAgreeExactly(mem: bytes, size: nat)
    requires size + 4 <= |mem| && 0 < size
    ensures (forall before | LeftBehind(before) :: HasKey(ListAfter(before, mem, size)) == KeyScan(mem, 0, size))
            <==> CodeLen(mem, 0) == 4
  {
    if CodeLen(mem, 0) == 4 {
      forall before: seq<Nalu> | LeftBehind(before)
        ensures HasKey(ListAfter(before, mem, size)) == KeyScan(mem, 0, size)
      {
        KeyTestsAgree(before, mem, size);
      }
    } else {
      hide LeftBehind;
      HeaderFrame(5);
      HeaderFrame(1);
      var idr, other := [Nalu(4, 1, NalType(5))], [Nalu(4, 1, NalType(1))];
      assert idr[0].typ == NAL_IDR;
      assert HasKey(ListAfter(idr, mem, size)) && !HasKey(ListAfter(other, mem, size));
    }
  }

  /** Some unit is an IDR slice: type 5 by the syntax of its header. */
  ghost predicate HasIdr(cs: seq<Coded>) {
    exists i :: 0 <= i < |cs| && cs[i].unit != [] && HasType(cs[i].unit[0], 5)
  }

  /** The list of places has a key unit exactly when the encoding has an IDR slice. */
  lemma {:induction false} PlacesHaveKey(cs: seq<Coded>, p: nat)
    requires AllUnitsOk(cs)
    ensures HasKey(Places(cs, p)) <==> HasIdr(cs)
    decreases |cs|
  {
    hide UnitOk, Code, HasType, NalType, HasKey, Places;
    if cs == [] {
      NoPlaces(p);
      NoUnits();
    } else {
      PlacesStep(cs, p);
      var u, r := cs[0].unit, p + |Code(cs[0])| + |cs[0].unit|;
      PlacesHaveKey(cs[1..], r);
      HasKeyCons(Nalu(p + |Code(cs[0])|, |u|, NalType(u[0])), Places(cs[1..], r));
      TypeMeans(u[0], 5);
      IdrCons(cs);
    }
  }

  lemma {:induction false} IdrCons(cs: seq<Coded>)
    requires cs != [] && cs[0].unit != []
    ensures HasIdr(cs) <==> HasType(cs[0].unit[0], 5) || HasIdr(cs[1..])
  {
    hide HasType;
    if HasIdr(cs[1..]) {
      var i :| 0 <= i < |cs[1..]| && cs[1..][i].unit != [] && HasType(cs[1..][i].unit[0], 5);
      assert cs[i + 1] == cs[1..][i];
    }
    if HasIdr(cs) {
      var i :| 0 <= i < |cs| && cs[i].unit != [] && HasType(cs[i].unit[0], 5);
      if i > 0 { assert cs[1..][i - 1] == cs[i]; }
    }
  }

  /** For every encoding of well-formed units, whatever its first start code, the recorder's test says
      whether one of them is an IDR slice. */
  lemma {:induction false} KeyTestMeans(mem: bytes, p: nat, cs: seq<Coded>)
    requires AllUnitsOk(cs) && HasAt(mem, p, Encode(cs)) && p + |Encode(cs)| + 4 <= |mem|
    ensures KeyScan(mem, p, p + |Encode(cs)|) <==> HasIdr(cs)
  {
    hide Encode, CodeLen, ScanFrom, UnitOk, Code, Places, HasAt, HasIdr, HasKey, NalType;
    if cs == [] {
      NothingEncoded();
    } else {
      var q := p + |Code(cs[0])|;
      EncodeParts(mem, p, cs);
      CodeFound(mem, p, cs[0]);
      CodeSize(cs[0]);
      ScanEncoded(mem, p, cs);
      ScanHasKey(mem, q + 1, p + |Encode(cs)|, q);
      PlacesHaveKey(cs, p);
    }
  }

  lemma {:induction false} NothingEncoded()
    ensures Encode([]) == [] && !HasIdr([])
  {
  }
}
