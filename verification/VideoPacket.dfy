/** The FLV AVCVIDEOPACKET built from a split frame (section E.4.3.2 of the Adobe Flash Video
    File Format Specification 10.1), and the player object that builds it. */
module VideoPacket {
  import opened Bytes
  import opened AnnexB
  import opened NalUnits

  /** Four bytes, most significant first. */
  function Be32(n: nat): (b: bytes)
    ensures |b| == 4
  {
    [n / 0x100_0000 % 256, n / 0x1_0000 % 256, n / 0x100 % 256, n % 256]
  }

  function FromBe32(b: bytes): nat
    requires |b| == 4
  {
    b[0] as int * 0x100_0000 + b[1] as int * 0x1_0000 + b[2] as int * 0x100 + b[3]
  }

  lemma {:induction false} FromBe32Be32(n: nat)
    requires n < 0x1_0000_0000
    ensures FromBe32(Be32(n)) == n
  {
    var a, b, c := n / 0x100, n / 0x1_0000, n / 0x100_0000;
    assert a / 0x100 == b && b / 0x100 == c;
    assert c % 256 == c;
  }

  /** Each unit behind its length. */
  function Prefixed(us: seq<bytes>): bytes {
    if us == [] then [] else Be32(|us[0]|) + us[0] + Prefixed(us[1..])
  }

  /** Frame kind and codec, packet type 1, composition time 0. */
  function Header(key: bool): (h: bytes)
    ensures |h| == 5
  {
    [if key then 0x17 else 0x27, 1, 0, 0, 0]
  }

  function Packet(key: bool, us: seq<bytes>): bytes { Header(key) + Prefixed(us) }

  /** The receiver: units read back from a length-prefixed body. */
  function DecodeBody(b: bytes): Option<seq<bytes>>
    decreases |b|
  {
    if b == [] then Some([])
    else if |b| < 4 || |b| < 4 + FromBe32(b[..4]) then None
    else
      var n := FromBe32(b[..4]);
      match DecodeBody(b[4 + n..])
      case None => None
      case Some(rest) => Some([b[4..4 + n]] + rest)
  }

  predicate Short(u: bytes) { |u| < 0x1_0000_0000 }

  lemma {:induction false} DecodePrefixed(us: seq<bytes>)
    requires forall i :: 0 <= i < |us| ==> Short(us[i])
    ensures DecodeBody(Prefixed(us)) == Some(us)
    decreases |us|
  {
    if us != [] {
      var u, rest := us[0], us[1..];
      DecodePrefixed(rest);
      assert Short(u);
      FromBe32Be32(|u|);
      HeadOf(Be32(|u|), u, Prefixed(rest));
      assert us == [u] + rest;
    }
  }

  lemma {:induction false} HeadOf(a: bytes, u: bytes, rest: bytes)
    ensures var b := a + u + rest;
            && b[..|a|] == a && b[|a|..|a| + |u|] == u && b[|a| + |u|..] == rest
  {
  }

  lemma {:induction false} PrefixedAppend(us: seq<bytes>, vs: seq<bytes>)
    ensures Prefixed(us + vs) == Prefixed(us) + Prefixed(vs)
    decreases |us|
  {
    if us == [] {
      assert us + vs == vs;
    } else {
      PrefixedAppend(us[1..], vs);
      assert (us + vs)[1..] == us[1..] + vs;
      ConcatAssoc(Be32(|us[0]|) + us[0], Prefixed(us[1..]), Prefixed(vs));
    }
  }

  lemma {:induction false} PrefixedOne(u: bytes)
    ensures Prefixed([u]) == Be32(|u|) + u
  {
    assert Prefixed([u]) == Be32(|u|) + u + Prefixed([]);
  }

  /** The part written after unit `j`, and that it fits whenever the whole does. */
  lemma {:induction false} PrefixedNext(us: seq<bytes>, j: nat)
    requires j < |us|
    ensures Prefixed(us[..j + 1]) == Prefixed(us[..j]) + (Be32(|us[j]|) + us[j])
    ensures |Prefixed(us[..j + 1])| <= |Prefixed(us)|
  {
    TakeSnoc(us, j + 1);
    PrefixedAppend(us[..j], [us[j]]);
    PrefixedOne(us[j]);
    assert us == us[..j + 1] + us[j + 1..];
    PrefixedAppend(us[..j + 1], us[j + 1..]);
  }

  function PrefixedSize(us: seq<bytes>): nat {
    if us == [] then 0 else 4 + |us[0]| + PrefixedSize(us[1..])
  }

  lemma {:induction false} PrefixedLength(us: seq<bytes>)
    ensures |Prefixed(us)| == PrefixedSize(us)
    decreases |us|
  {
    if us != [] { PrefixedLength(us[1..]); }
  }

  /** An AVCVIDEOPACKET behind its frame type and codec. */
  datatype Avc = Avc(frameType: nat, codec: nat, packetType: nat, compositionTime: nat, units: seq<bytes>)

  /** The receiver of a whole packet. */
  function DecodePacket(p: bytes): Option<Avc> {
    if |p| < 5 then None
    else
      match DecodeBody(p[5..])
      case None => None
      case Some(us) => Some(Avc(p[0] / 16, p[0] % 16, p[1], p[2] as int * 0x1_0000 + p[3] as int * 0x100 + p[4], us))
  }

  /** A packet of NAL units by AVC (codec 7, packet type 1) that is shown at once. */
  function NaluPacket(key: bool, us: seq<bytes>): Avc { Avc(if key then 1 else 2, 7, 1, 0, us) }

  lemma {:induction false} PacketDecodes(key: bool, us: seq<bytes>)
    requires forall i :: 0 <= i < |us| ==> Short(us[i])
    ensures DecodePacket(Packet(key, us)) == Some(NaluPacket(key, us))
  {
    hide Prefixed, DecodeBody;
    var p := Packet(key, us);
    assert p[5..] == Prefixed(us);
    DecodePrefixed(us);
    assert p[..5] == Header(key);
    assert p[0] == Header(key)[0] && p[1] == Header(key)[1] && p[2] == Header(key)[2] && p[3] == Header(key)[3] && p[4] == Header(key)[4];
  }

  // ------------------------------------------------------------ repackaging

  function UnitsOf(cs: seq<Coded>): (us: seq<bytes>)
    ensures |us| == |cs|
  {
    seq(|cs|, i requires 0 <= i < |cs| => cs[i].unit)
  }

  /** Number of units behind a three-byte start code. */
  function ShortCodes(cs: seq<Coded>): nat {
    if cs == [] then 0 else (if cs[0].long then 0 else 1) + ShortCodes(cs[1..])
  }

  lemma {:induction false} SizeOf(cs: seq<Coded>)
    ensures PrefixedSize(UnitsOf(cs)) == |Encode(cs)| + ShortCodes(cs)
    decreases |cs|
  {
    if cs != [] {
      SizeOf(cs[1..]);
      assert UnitsOf(cs)[1..] == UnitsOf(cs[1..]);
    }
  }

  /** Repackaging preserves the NAL units: the body of the packet made from an Annex B frame
      decodes to the units of the frame, and the packet is five bytes longer than the frame plus
      one byte for every three-byte start code. It is marked as a key frame if and only if one of the
      units is an IDR slice. */
  lemma {:induction false} RepackagePreserves(before: seq<Nalu>, mem: bytes, cs: seq<Coded>)
    requires cs != [] && cs[0].long && AllUnitsOk(cs) && |mem| < 0x1_0000_0000
    requires HasAt(mem, 0, Encode(cs)) && |Encode(cs)| + 4 <= |mem|
    ensures |Encode(cs)| > 0
    ensures var us := ListAfter(before, mem, |Encode(cs)|);
            && AllInMem(mem, us)
            && var p := Packet(HasKey(us), Units(mem, us));
            && DecodePacket(p) == Some(NaluPacket(HasIdr(cs), UnitsOf(cs)))
            && |p| == |Encode(cs)| + 5 + ShortCodes(cs)
  {
    hide Encode, KeyScan, ScanFrom, CodeLen, Prefixed, DecodePacket, HasKey, PrefixedSize, HasIdr, HasType, UnitOk, HasAt;
    SplitReturnsUnits(mem, cs);
    KeyTestsAgree(before, mem, |Encode(cs)|);
    KeyTestMeans(mem, 0, cs);
    var us := ListAfter(before, mem, |Encode(cs)|);
    var units := Units(mem, us);
    assert units == UnitsOf(cs);
    PacketDecodes(HasKey(us), units);
    PrefixedLength(units);
    SizeOf(cs);
  }

  /** A frame that begins otherwise: the packet holds whatever lies in the frame's memory where the
      units of an earlier frame lay, and is marked by that frame's kind. */
  lemma {:induction false} RepackageStale(before: seq<Nalu>, mem: bytes, size: nat)
    requires size + 4 <= |mem| < 0x1_0000_0000 && CodeLen(mem, 0) != 4 && AllInMem(mem, before)
    ensures var us := ListAfter(before, mem, size);
            && us == before
            && var p := Packet(HasKey(us), Units(mem, us));
            && DecodePacket(p) == Some(NaluPacket(HasKey(before), Units(mem, before)))
  {
    hide Prefixed, DecodePacket, HasKey;
    var units := Units(mem, before);
    forall i | 0 <= i < |units| ensures Short(units[i]) { UnitAt(mem, before, i); }
    PacketDecodes(HasKey(before), units);
  }

  /** The packet of an Annex B frame holds the frame's units whatever the player split before if and
      only if the frame begins with a four-byte start code. */
  lemma {:induction false} RepackagesExactly(mem: bytes, cs: seq<Coded>)
    requires cs != [] && AllUnitsOk(cs) && |mem| < 0x1_0000_0000
    requires HasAt(mem, 0, Encode(cs)) && |Encode(cs)| + 4 <= |mem|
    ensures (forall before | AllInMem(mem, before) :: SendsUnits(before, mem, cs)) <==> cs[0].long
  {
    if cs[0].long {
      forall before: seq<Nalu> | AllInMem(mem, before) ensures SendsUnits(before, mem, cs) {
        RepackagePreserves(before, mem, cs);
      }
    } else {
      ShortFirst(mem, cs);
      var none: seq<Nalu> := [];
      RepackageStale(none, mem, |Encode(cs)|);
      assert |Units(mem, none)| != |UnitsOf(cs)|;
      assert AllInMem(mem, none) && !SendsUnits(none, mem, cs);
    }
  }

  ghost predicate SendsUnits(before: seq<Nalu>, mem: bytes, cs: seq<Coded>)
    requires |Encode(cs)| + 4 <= |mem|
  {
    && (CodeLen(mem, 0) == 4 ==> 0 < |Encode(cs)|)
    && var us := ListAfter(before, mem, |Encode(cs)|);
    && AllInMem(mem, us)
    && DecodePacket(Packet(HasKey(us), Units(mem, us))) == Some(NaluPacket(HasIdr(cs), UnitsOf(cs)))
  }

  lemma {:induction false} ShortFirst(mem: bytes, cs: seq<Coded>)
    requires cs != [] && !cs[0].long && HasAt(mem, 0, Encode(cs)) && |Encode(cs)| + 4 <= |mem|
    ensures CodeLen(mem, 0) != 4
  {
    HasAtByte(mem, 0, Encode(cs), 2);
  }

  // ------------------------------------------------------------ the player

  /** `i` is the last position of a unit of type `t`, -1 if there is none. */
  predicate LastOf(us: seq<Nalu>, t: int, i: int) {
    && -1 <= i < |us|
    && (i >= 0 ==> us[i].typ == t)
    && forall j :: i < j < |us| ==> us[j].typ != t
  }

  /** The length of a unit at `i`, highest byte first. */
  method PutLength(body: array<byte>, i: nat, n: nat)
    requires i + 4 <= body.Length
    modifies body
    ensures body[..i] == old(body[..i]) && body[i..i + 4] == Be32(n)
  {
    body[i] := n / 0x100_0000 % 256;
    body[i + 1] := n / 0x1_0000 % 256;
    body[i + 2] := n / 0x100 % 256;
    body[i + 3] := n % 256;
  }

  /** Length and bytes of one unit behind the first `i` bytes of the body. */
  method PutUnit(body: array<byte>, i: nat, mem: array<byte>, u: Nalu)
    requires mem != body && InMem(mem[..], u) && i + 4 + u.len <= body.Length
    modifies body
    ensures body[..i + 4 + u.len] == old(body[..i]) + (Be32(u.len) + UnitBytes(mem[..], u))
  {
    hide Be32;
    PutLength(body, i, u.len);
    ghost var head := body[..];
    assert head[..i + 4] == head[..i] + head[i..i + 4];
    CopyInto(body, i + 4, mem[u.start..u.start + u.len]);
    assert mem[u.start..u.start + u.len] == UnitBytes(mem[..], u);
    assert body[..][..i + 4 + u.len] == head[..i + 4] + UnitBytes(mem[..], u);
    ConcatAssoc(old(body[..i]), Be32(u.len), UnitBytes(mem[..], u));
  }

  class Player {
    var naluList: seq<Nalu>
    var isKeyFrame: bool
    var keyFrameCnt: nat
    var keyFrameIdx: int
    var spsIdx: int
    var ppsIdx: int

    /** ParseH264Param, called only on frames with a four-byte start code at the front. */
    method ParseH264Param(mem: array<byte>, size: nat)
      requires size + 4 <= mem.Length && 0 < size && CodeLen(mem[..], 0) == 4
      modifies this`naluList
      ensures naluList == Scan(mem[..], size)
    {
      naluList := [];
      ghost var m := mem[..];
      var idx, isFirstNalu, nalu := 0, false, Nalu(0, 0, 0);
      while idx < size
        invariant idx == 0 || isFirstNalu
        invariant !isFirstNalu ==> idx == 0 && naluList == []
        invariant isFirstNalu ==>
                    && nalu.start < idx <= size + 4 && nalu == NaluAt(m, nalu.start, idx - nalu.start)
                    && naluList + ScanFrom(m, idx, size, nalu.start) == Scan(m, size)
        decreases size + 5 - idx
      {
        var four := mem[idx] == 0 && mem[idx + 1] == 0 && mem[idx + 2] == 0 && mem[idx + 3] == 1;
        var three := mem[idx] == 0 && mem[idx + 1] == 0 && mem[idx + 2] == 1;
        if !four && !three {
          idx := idx + 1;
          nalu := nalu.(len := nalu.len + 1);
          continue;
        }
        if isFirstNalu {
          ScanCode(m, idx, size, nalu.start);
          ConcatAssoc(naluList, [nalu], ScanFrom(m, idx + CodeLen(m, idx) + 1, size, idx + CodeLen(m, idx)));
          naluList := naluList + [nalu];
        }
        idx := idx + (if four then 4 else 3);
        nalu := Nalu(idx, 1, NalType(mem[idx]));
        idx := idx + 1;
        isFirstNalu := true;
      }
      naluList := naluList + [nalu];
    }

    /** ParseVideoData: split the frame if it starts with a four-byte start code, then note the
        last key frame, SPS and PPS of the list. */
    method ParseVideoData(mem: array<byte>, size: nat)
      requires size + 4 <= mem.Length && (CodeLen(mem[..], 0) == 4 ==> 0 < size)
      modifies this
      ensures naluList == ListAfter(old(naluList), mem[..], size)
      ensures CodeLen(mem[..], 0) == 4 ==> AllInMem(mem[..], naluList)
      ensures isKeyFrame == HasKey(naluList)
      ensures LastOf(naluList, 5, keyFrameIdx) && LastOf(naluList, 7, spsIdx) && LastOf(naluList, 8, ppsIdx)
      ensures keyFrameCnt == if isKeyFrame then 1 else (old(keyFrameCnt) + 1) % 0x1_0000_0000
    {
      hide ScanFrom, LastOf, HasKey;
      var keySeen := false;
      keyFrameIdx, spsIdx, ppsIdx := -1, -1, -1;
      if mem[0] == 0 && mem[1] == 0 && mem[2] == 0 && mem[3] == 1 {
        ParseH264Param(mem, size);
        SplitInMem(mem[..], size);
      }
      ghost var us := naluList;
      var i := 0;
      NoneSeen(us);
      while i < |naluList|
        invariant 0 <= i <= |us| && naluList == us
        invariant keySeen == HasKey(us[..i])
        invariant LastOf(us[..i], NAL_IDR, keyFrameIdx) && LastOf(us[..i], NAL_SPS, spsIdx) && LastOf(us[..i], NAL_PPS, ppsIdx)
        invariant keySeen ==> isKeyFrame && keyFrameCnt == 1
        invariant !keySeen ==> keyFrameCnt == old(keyFrameCnt)
      {
        SeenNext(us, i, keySeen);
        LastNext(us, i, NAL_IDR, keyFrameIdx);
        LastNext(us, i, NAL_SPS, spsIdx);
        LastNext(us, i, NAL_PPS, ppsIdx);
        if naluList[i].typ == NAL_IDR {
          keyFrameCnt := 1;
          isKeyFrame := true;
          keyFrameIdx := i;
          keySeen := true;
        } else if naluList[i].typ == NAL_SPS {
          spsIdx := i;
        } else if naluList[i].typ == NAL_PPS {
          ppsIdx := i;
        }
        i := i + 1;
      }
      assert us[..i] == us;
      if !keySeen {
        keyFrameCnt := (keyFrameCnt + 1) % 0x1_0000_0000;
        isKeyFrame := false;
      }
    }

    lemma {:induction false} NoneSeen(us: seq<Nalu>)
      ensures !HasKey(us[..0]) && forall t :: LastOf(us[..0], t, -1)
    {
    }

    lemma {:induction false} LastNext(us: seq<Nalu>, i: nat, t: int, last: int)
      requires i < |us| && LastOf(us[..i], t, last)
      ensures LastOf(us[..i + 1], t, if us[i].typ == t then i else last)
    {
      var a, b := us[..i], us[..i + 1];
      assert forall j :: 0 <= j < i ==> b[j] == a[j];
    }

    lemma {:induction false} SeenNext(us: seq<Nalu>, i: nat, seen: bool)
      requires i < |us| && seen == HasKey(us[..i])
      ensures HasKey(us[..i + 1]) == (seen || us[i].typ == NAL_IDR)
    {
      var a, b := us[..i], us[..i + 1];
      if us[i].typ == NAL_IDR {
        assert b[i].typ == NAL_IDR;
      } else if seen {
        var k :| 0 <= k < |a| && a[k].typ == NAL_IDR;
        assert b[k].typ == NAL_IDR;
      }
      if HasKey(b) {
        var k :| 0 <= k < |b| && b[k].typ == NAL_IDR;
        if k < i { assert a[k].typ == NAL_IDR; }
      }
    }

    /** PacketVideoData into the player's body buffer. */
    method PacketVideoData(mem: array<byte>, body: array<byte>) returns (n: nat)
      requires mem != body && AllInMem(mem[..], naluList)
      requires |Packet(isKeyFrame, Units(mem[..], naluList))| <= body.Length
      modifies body
      ensures n == |Packet(isKeyFrame, Units(mem[..], naluList))|
      ensures body[..n] == Packet(isKeyFrame, Units(mem[..], naluList))
    {
      PutHeader(body, isKeyFrame);
      n := PutUnits(body, Header(isKeyFrame), mem, naluList);
    }
  }

  method PutHeader(body: array<byte>, key: bool)
    requires body.Length >= 5
    modifies body
    ensures body[..5] == Header(key)
  {
    body[0] := if key then 0x17 else 0x27;
    body[1], body[2], body[3], body[4] := 1, 0, 0, 0;
  }

  lemma {:induction false} UnitAt(mem: bytes, us: seq<Nalu>, j: nat)
    requires AllInMem(mem, us) && j < |us|
    ensures InMem(mem, us[j]) && Units(mem, us)[j] == UnitBytes(mem, us[j]) && |Units(mem, us)[j]| == us[j].len
  {
  }

  /** The unit loop of PacketVideoData, behind what the body already holds. */
  method PutUnits(body: array<byte>, ghost head: bytes, mem: array<byte>, us: seq<Nalu>) returns (i: nat)
    requires mem != body && AllInMem(mem[..], us) && |head| == 5
    requires 5 + |Prefixed(Units(mem[..], us))| <= body.Length && body[..5] == head
    modifies body
    ensures i == 5 + |Prefixed(Units(mem[..], us))|
    ensures body[..i] == head + Prefixed(Units(mem[..], us))
  {
    hide Prefixed, Be32, Units, UnitBytes;
    ghost var m, units := mem[..], Units(mem[..], us);
    i := 5;
    var j := 0;
    NothingPrefixed(units);
    assert head + [] == head;
    while j < |us|
      invariant 0 <= j <= |us| && mem[..] == m
      invariant i == 5 + |Prefixed(units[..j])| <= body.Length
      invariant body[..i] == head + Prefixed(units[..j])
    {
      UnitAt(m, us, j);
      PrefixedNext(units, j);
      ConcatAssoc(head, Prefixed(units[..j]), Be32(|units[j]|) + units[j]);
      PutUnit(body, i, mem, us[j]);
      i := i + 4 + us[j].len;
      j := j + 1;
    }
    assert units[..j] == units;
  }

  lemma {:induction false} NothingPrefixed(us: seq<bytes>)
    ensures Prefixed(us[..0]) == []
  {
  }
}
