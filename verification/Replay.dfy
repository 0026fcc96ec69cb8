/** The replay of a file: frames are fetched by index until one fails, split and sent. What was
    recorded and flushed is sent again unit by unit. */
module Replay {
  import opened Bytes
  import opened AnnexB
  import opened NalUnits
  import opened VideoPacket
  import opened StoreImage
  import opened StoreDevice
  import opened StoreSteps
  import opened StoreRuns
  import opened StoreKeyStart
  import opened StoreRecorder

  // ------------------------------------------------------------ which frames are fetched

  /** The slot holds a frame that the loop takes: a frame of size zero ends it like a failure. */
  predicate Fetched(img: bytes, room: nat, j: nat) { Marked(img, j) && 0 < SizeAt(img, j) <= room }

  /** Number of frames fetched from slot `j` on, with a frame buffer of `room` bytes. */
  function FetchedFrom(img: bytes, room: nat, j: nat): (n: nat)
    ensures n > 0 ==> (j + n) * RECORD <= |img|
    decreases |img| - j * RECORD
  {
    if Fetched(img, room, j) then 1 + FetchedFrom(img, room, j + 1) else 0
  }

  function Played(img: bytes, room: nat): seq<Frame> { FirstFrames(img, FetchedFrom(img, room, 0)) }

  lemma {:induction false} FetchedLive(img: bytes, room: nat, j: nat)
    ensures FetchedFrom(img, room, j) <= LiveFrom(img, j)
    ensures FetchedFrom(img, room, j) == LiveFrom(img, j) <==>
            forall i :: j <= i < j + LiveFrom(img, j) ==> Fetched(img, room, i)
    decreases |img| - j * RECORD
  {
    if Marked(img, j) {
      FetchedLive(img, room, j + 1);
    }
  }

  lemma {:induction false} FirstFramesAt(img: bytes, n: nat, i: nat)
    requires i < n && n * RECORD <= |img|
    ensures HasSlot(img, i) && FirstFrames(img, n)[i] == FrameAt(img, i)
    decreases n
  {
    if i < n - 1 { FirstFramesAt(img, n - 1, i); }
  }

  predicate Playable(f: Frame, room: nat) { 0 < |f.data| <= room }

  /** The record's frame lies in the file. */
  predicate Inside(img: bytes, j: nat)
    requires HasSlot(img, j)
  {
    OffAt(img, j) + SizeAt(img, j) <= |img|
  }

  lemma {:induction false} SlotPlayable(img: bytes, room: nat, i: nat)
    requires i < LiveFrom(img, 0)
    ensures Marked(img, i) && ReadAll(img)[i] == FrameAt(img, i)
    ensures Playable(ReadAll(img)[i], room) ==> Fetched(img, room, i)
    ensures Fetched(img, room, i) && Inside(img, i) ==> Playable(ReadAll(img)[i], room)
  {
    LiveMarked(img, 0, i);
    hide FieldAt, LiveFrom;
    FirstFramesAt(img, LiveFrom(img, 0), i);
  }

  /** The loop reads the whole file if and only if no frame is empty or larger than its buffer. */
  lemma {:induction false} ReplaysWhole(img: bytes, room: nat)
    requires forall i :: 0 <= i < LiveFrom(img, 0) ==> HasSlot(img, i) && Inside(img, i)
    ensures Played(img, room) == ReadAll(img) <==> forall i :: 0 <= i < |ReadAll(img)| ==> Playable(ReadAll(img)[i], room)
  {
    hide Fetched, LiveFrom, FetchedFrom, FirstFrames, Playable, Inside;
    FetchedLive(img, room, 0);
    forall i | 0 <= i < LiveFrom(img, 0) ensures Fetched(img, room, i) <==> Playable(ReadAll(img)[i], room) {
      SlotPlayable(img, room, i);
    }
  }

  /** Frames that fit the buffer are all fetched. */
  lemma {:induction false} PlaysAll(img: bytes, room: nat)
    requires forall i :: 0 <= i < |ReadAll(img)| ==> Playable(ReadAll(img)[i], room)
    ensures Played(img, room) == ReadAll(img)
  {
    hide Fetched, LiveFrom, FetchedFrom, FirstFrames, Playable;
    FetchedLive(img, room, 0);
    forall i | 0 <= i < LiveFrom(img, 0) ensures Fetched(img, room, i) {
      SlotPlayable(img, room, i);
    }
  }

  // ------------------------------------------------------------ what is sent

  /** The frame buffer with whatever earlier frames left in it, and the list split last. */
  datatype Screen = Screen(buf: bytes, units: seq<Nalu>)

  predicate ScreenOk(p: Screen, room: nat) {
    room + 4 <= |p.buf| < 0x1_0000_0000 && AllInMem(p.buf, p.units)
  }

  /** A frame copied to the front of the buffer and split. */
  function Show(p: Screen, f: Frame): Screen
    requires 0 < |f.data| && |f.data| + 4 <= |p.buf|
  {
    var m := Put(p.buf, 0, f.data);
    Screen(m, ListAfter(p.units, m, |f.data|))
  }

  lemma {:induction false} ShowOk(p: Screen, f: Frame, room: nat)
    requires ScreenOk(p, room) && Playable(f, room)
    ensures ScreenOk(Show(p, f), room)
  {
    hide ScanFrom, CodeLen, Put;
    var m := Put(p.buf, 0, f.data);
    if CodeLen(m, 0) == 4 { SplitInMem(m, |f.data|); }
  }

  function Sent(p: Screen): bytes
    requires AllInMem(p.buf, p.units)
  {
    Packet(HasKey(p.units), Units(p.buf, p.units))
  }

  /** The video packets of the loop: nothing is sent before the first key frame, by the player's test. */
  function Packets(p: Screen, started: bool, fs: seq<Frame>, room: nat): (ps: seq<bytes>)
    requires ScreenOk(p, room) && forall i :: 0 <= i < |fs| ==> Playable(fs[i], room)
    decreases |fs|
  {
    if fs == [] then []
    else
      ShowOk(p, fs[0], room);
      var q := Show(p, fs[0]);
      if !started && !HasKey(q.units) then Packets(q, false, fs[1..], room)
      else [Sent(q)] + Packets(q, true, fs[1..], room)
  }

  /** The frame is an encoding of well-formed units that begins with a four-byte start code. */
  predicate Encodes(f: Frame, cs: seq<Coded>) {
    cs != [] && cs[0].long && AllUnitsOk(cs) && f.data == Encode(cs)
  }

  lemma {:induction false} ShowSends(p: Screen, f: Frame, cs: seq<Coded>, room: nat)
    requires ScreenOk(p, room) && Playable(f, room) && Encodes(f, cs)
    ensures var q := Show(p, f);
            && ScreenOk(q, room) && DecodePacket(Sent(q)) == Some(NaluPacket(HasIdr(cs), UnitsOf(cs)))
            && HasKey(q.units) == KeyScan(q.buf, 0, |f.data|)
  {
    ShowOk(p, f, room);
    hide ScanFrom, CodeLen, Encode, Prefixed, DecodePacket, HasKey, KeyScan, UnitOk;
    var m := Put(p.buf, 0, f.data);
    assert HasAt(m, 0, Encode(cs));
    RepackagePreserves(p.units, m, cs);
    LongFirst(m, cs);
    KeyTestsAgree(p.units, m, |f.data|);
  }

  /** Frames that are encodings are sent unit by unit, whatever was played before. */
  lemma {:induction false} PacketsDecode(p: Screen, started: bool, fs: seq<Frame>, css: seq<seq<Coded>>, room: nat)
    requires ScreenOk(p, room) && |fs| == |css|
    requires forall i :: 0 <= i < |fs| ==> Playable(fs[i], room) && Encodes(fs[i], css[i])
    requires fs != [] && !started ==> Delimited(fs[0].data) && IsKeyFrame(fs[0].data)
    ensures var ps := Packets(p, started, fs, room);
            && |ps| == |fs|
            && forall i :: 0 <= i < |ps| ==> DecodePacket(ps[i]) == Some(NaluPacket(HasIdr(css[i]), UnitsOf(css[i])))
    decreases |fs|
  {
    hide Playable, Encodes, DecodePacket, ScreenOk, Show, Sent, UnitsOf;
    if fs != [] {
      PacketsStep(p, started, fs, css[0], room);
      PacketsDecode(Show(p, fs[0]), true, fs[1..], css[1..], room);
    }
  }

  lemma {:induction false} PacketsStep(p: Screen, started: bool, fs: seq<Frame>, cs: seq<Coded>, room: nat)
    requires ScreenOk(p, room) && fs != []
    requires (forall i :: 0 <= i < |fs| ==> Playable(fs[i], room)) && Encodes(fs[0], cs)
    requires !started ==> Delimited(fs[0].data) && IsKeyFrame(fs[0].data)
    ensures |fs[0].data| > 0 && |fs[0].data| + 4 <= |p.buf|
    ensures var q := Show(p, fs[0]);
            && ScreenOk(q, room) && DecodePacket(Sent(q)) == Some(NaluPacket(HasIdr(cs), UnitsOf(cs)))
            && Packets(p, started, fs, room) == [Sent(q)] + Packets(q, true, fs[1..], room)
  {
    hide Encodes, DecodePacket, KeyScan, HasKey, Delimited, IsKeyFrame, Prefixed, UnitsOf, ListAfter;
    ShowSends(p, fs[0], cs, room);
    var q := Show(p, fs[0]);
    if !started { KeyScanStored(q.buf, 0, fs[0].data); }
  }

  // ------------------------------------------------------------ the loop

  lemma {:induction false} FetchedAt(img: bytes, room: nat, j: nat, i: nat)
    requires j <= i <= j + FetchedFrom(img, room, j)
    ensures Fetched(img, room, i) <==> i < j + FetchedFrom(img, room, j)
    decreases i - j
  {
    if j < i { FetchedAt(img, room, j + 1, i); }
  }

  /** The records end before the slots do, and their frames lie in the file. */
  predicate FileOk(img: bytes) {
    && HasSlot(img, LiveFrom(img, 0))
    && forall i :: 0 <= i < LiveFrom(img, 0) ==> HasSlot(img, i) && Inside(img, i)
  }

  /** Slot `i` as the loop finds it. */
  lemma {:induction false} FetchSlot(img: bytes, room: nat, i: nat)
    requires FileOk(img) && i <= |Played(img, room)|
    ensures HasSlot(img, i) && (Marked(img, i) ==> Inside(img, i))
    ensures var fs := Played(img, room);
            && (i < |fs| ==> ReadFrame(img, i, room) == Some(fs[i]) && Playable(fs[i], room))
            && (i == |fs| ==> ReadFrame(img, i, room).None? || ReadFrame(img, i, room).value.data == [])
  {
    FetchedLive(img, room, 0);
    FetchedAt(img, room, 0, i);
    LiveMarked(img, 0, i);
    hide FieldAt, LiveFrom, FetchedFrom;
    if i < FetchedFrom(img, room, 0) { FirstFramesAt(img, FetchedFrom(img, room, 0), i); }
  }

  lemma {:induction false} AllPlayable(img: bytes, room: nat)
    requires FileOk(img)
    ensures forall i :: 0 <= i < |Played(img, room)| ==> Playable(Played(img, room)[i], room)
  {
    hide FileOk, Playable, FirstFrames, FetchedFrom;
    forall i | 0 <= i < |Played(img, room)| ensures Playable(Played(img, room)[i], room) { FetchSlot(img, room, i); }
  }

  /** What is still to be sent at slot `i`. */
  ghost function Rest(img: bytes, room: nat, i: nat, p: Screen, started: bool): seq<bytes>
    requires FileOk(img) && ScreenOk(p, room) && i <= |Played(img, room)|
  {
    AllPlayable(img, room);
    Packets(p, started, Played(img, room)[i..], room)
  }

  /** Every packet fits the body buffer. */
  ghost predicate AllFit(ps: seq<bytes>, cap: nat) { forall i :: 0 <= i < |ps| ==> |ps[i]| <= cap }

  lemma {:induction false} RestStep(img: bytes, room: nat, i: nat, p: Screen, started: bool)
    requires FileOk(img) && ScreenOk(p, room) && i < |Played(img, room)|
    ensures var f := Played(img, room)[i];
            && Playable(f, room) && ScreenOk(Show(p, f), room)
            && var q := Show(p, f);
            Rest(img, room, i, p, started) ==
              if !started && !HasKey(q.units) then Rest(img, room, i + 1, q, false)
              else [Sent(q)] + Rest(img, room, i + 1, q, true)
  {
    hide FileOk, ScreenOk, Show, Sent, HasKey, Played;
    AllPlayable(img, room);
    var fs := Played(img, room);
    FrameFits(p, fs[i], room);
    ShowOk(p, fs[i], room);
    assert fs[i..][0] == fs[i] && fs[i..][1..] == fs[i + 1..];
  }

  lemma {:induction false} FrameFits(p: Screen, f: Frame, room: nat)
    requires ScreenOk(p, room) && Playable(f, room)
    ensures 0 < |f.data| && |f.data| + 4 <= |p.buf|
  {
  }

  /** One turn up to the split: the frame is fetched into the frame buffer and split there. */
  method NextFrame(frames: array<byte>, one: array<byte>, room: nat, player: Player, idx: nat) returns (size: int)
    requires frames != one && FileOk(frames[..]) && ScreenOk(Screen(one[..], player.naluList), room)
    requires idx <= |Played(frames[..], room)|
    modifies one, player
    ensures size > 0 <==> idx < |Played(frames[..], room)|
    ensures size > 0 ==>
              var f := Played(frames[..], room)[idx];
              && Playable(f, room) && room + 4 <= |old(one[..])|
              && Screen(one[..], player.naluList) == Show(old(Screen(one[..], player.naluList)), f)
              && player.isKeyFrame == HasKey(player.naluList)
  {
    hide FileOk, Played, HasKey, ScanFrom, LastOf;
    assert room + 4 <= one.Length;
    FetchSlot(frames[..], room, idx);
    var time;
    size, time := GetOneFrameByIndex(idx, frames, one, room);
    if size > 0 {
      player.ParseVideoData(one, size);
    }
  }

  /** The packet of the frame that was split last. */
  method SendFrame(one: array<byte>, body: array<byte>, player: Player) returns (packet: bytes)
    requires one != body && AllInMem(one[..], player.naluList) && player.isKeyFrame == HasKey(player.naluList)
    requires |Sent(Screen(one[..], player.naluList))| <= body.Length
    modifies body
    ensures packet == Sent(Screen(one[..], player.naluList))
  {
    hide HasKey, Packet, AllInMem;
    var n := player.PacketVideoData(one, body);
    packet := body[..n];
  }

  /** StartPlaybackStoreFile: the video packets it sends over a connection that stays up. */
  method StartPlaybackStoreFile(frames: array<byte>, one: array<byte>, room: nat, body: array<byte>, player: Player, first: bool)
    returns (packets: seq<bytes>, started: bool)
    requires frames != one && frames != body && one != body
    requires FileOk(frames[..]) && ScreenOk(Screen(one[..], player.naluList), room)
    requires AllFit(Rest(frames[..], room, 0, Screen(one[..], player.naluList), first), body.Length)
    modifies one, body, player
    ensures packets == old(Rest(frames[..], room, 0, Screen(one[..], player.naluList), first))
    ensures started == (first || packets != [])
  {
    hide FileOk, ScreenOk, Show, Sent, HasKey, Played, Rest, Playable;
    packets, started := [], first;
    ghost var img, all := frames[..], Rest(frames[..], room, 0, Screen(one[..], player.naluList), first);
    var idx := 0;
    while true
      invariant frames[..] == img && idx <= |Played(img, room)| && ScreenOk(Screen(one[..], player.naluList), room)
      invariant packets + Rest(img, room, idx, Screen(one[..], player.naluList), started) == all
      invariant started == (first || packets != [])
      decreases |Played(img, room)| - idx
    {
      ghost var p := Screen(one[..], player.naluList);
      var size := NextFrame(frames, one, room, player, idx);
      if size <= 0 {
        NoRest(img, room, p, started);
        break;
      }
      ghost var q := Screen(one[..], player.naluList);
      RestStep(img, room, idx, p, started);
      idx := idx + 1;
      if !started && !player.isKeyFrame {
        continue;
      }
      ScreenUnits(q, room);
      ConcatAssoc(packets, [Sent(q)], Rest(img, room, idx, q, true));
      assert all[|packets|] == Sent(q);
      var packet := SendFrame(one, body, player);
      packets, started := packets + [packet], true;
    }
  }

  lemma {:induction false} NoRest(img: bytes, room: nat, p: Screen, started: bool)
    requires FileOk(img) && ScreenOk(p, room)
    ensures Rest(img, room, |Played(img, room)|, p, started) == []
  {
  }

  lemma {:induction false} ScreenUnits(p: Screen, room: nat)
    requires ScreenOk(p, room)
    ensures AllInMem(p.buf, p.units)
  {
  }

  // ------------------------------------------------------------ from recording to replay

  /** Every accepted frame fits the replay's buffer and is an encoding of its units. */
  ghost predicate Recorded(log: seq<Frame>, css: seq<seq<Coded>>, room: nat) {
    |css| == |log| && forall i :: 0 <= i < |log| ==> Playable(log[i], room) && Encodes(log[i], css[i])
  }

  /** The frames of one file among those of all. */
  lemma {:induction false} FileFrames(files: seq<bytes>, k: nat)
    requires k < |files|
    ensures var a, fs := |ReadBack(files[..k])|, ReadAll(files[k]);
            a + |fs| <= |ReadBack(files)| && ReadBack(files)[a..a + |fs|] == fs
    decreases |files|
  {
    hide ReadAll;
    var n := |files| - 1;
    if k < n {
      FileFrames(files[..n], k);
      assert files[..n][..k] == files[..k];
    }
  }

  lemma {:induction false} DelimitedUnit(code: bytes, u: bytes)
    requires code != [] && code[|code| - 1] == 1 && UnitOk(u)
    ensures Delimited(code + u)
  {
    var f, n := code + u, |code| + |u|;
    if n >= 3 && HasAt(f, n - 3, CODE3) {
      HasAtByte(f, n - 3, CODE3, 0);
      HasAtByte(f, n - 3, CODE3, 1);
      HasAtByte(f, n - 3, CODE3, 2);
    }
  }

  lemma {:induction false} DelimitedSuffix(a: bytes, b: bytes)
    requires Delimited(b) && |b| >= 3
    ensures Delimited(a + b)
  {
    var n := |a + b|;
    assert (a + b)[n - 3..n] == b[|b| - 3..];
  }

  lemma {:induction false} EncodedDelimited(cs: seq<Coded>)
    requires cs != [] && AllUnitsOk(cs)
    ensures |Encode(cs)| >= 3 && Delimited(Encode(cs))
    decreases |cs|
  {
    hide UnitOk, Delimited;
    var head := Code(cs[0]) + cs[0].unit;
    assert UnitOk(cs[0].unit);
    if |cs| == 1 {
      DelimitedUnit(Code(cs[0]), cs[0].unit);
      assert Encode(cs) == head + Encode([]) == head;
    } else {
      EncodedDelimited(cs[1..]);
      DelimitedSuffix(head, Encode(cs[1..]));
    }
  }

  /** The frames of file `k` are fetched whole and are the accepted frames behind those of the files
      before it. One packet is sent for each, and it decodes to the units of that frame. */
  ghost predicate FileSent(s: Sys, css: seq<seq<Coded>>, room: nat, k: nat, p: Screen, started: bool)
    requires k < |s.files| && ScreenOk(p, room)
  {
    var a, fs := |ReadBack(s.files[..k])|, Played(s.files[k], room);
    && a + |fs| <= |s.log| == |css| && fs == s.log[a..a + |fs|] == ReadAll(s.files[k])
    && (forall i :: 0 <= i < |fs| ==> Playable(fs[i], room))
    && var ps := Packets(p, started, fs, room);
    && |ps| == |fs|
    && forall i :: 0 <= i < |ps| ==> DecodePacket(ps[i]) == Some(NaluPacket(HasIdr(css[a + i]), UnitsOf(css[a + i])))
  }

  /** What was accepted, recorded and flushed is what is sent on replay, unit by unit and in order,
      whatever was played before. */
  lemma {:induction false} RecordedIsSent(s: Sys, css: seq<seq<Coded>>, room: nat, k: nat, p: Screen, started: bool)
    requires Conserved(s) && KeyStart(s) && Recorded(s.log, css, room) && k < |s.files| && ScreenOk(p, room)
    ensures FileSent(s, css, room, k, p, started)
  {
    hide Conserved, KeyStart, ReadAll, ReadBack, Played, Playable, Encodes, ScreenOk, Packets, DecodePacket, UnitsOf, IsKeyFrame, Delimited;
    var a, fs := |ReadBack(s.files[..k])|, ReadAll(s.files[k]);
    FileRecorded(s, css, room, k);
    PlaysAll(s.files[k], room);
    PacketsDecode(p, started, fs, css[a..a + |fs|], room);
  }

  lemma {:induction false} FileRecorded(s: Sys, css: seq<seq<Coded>>, room: nat, k: nat)
    requires Conserved(s) && KeyStart(s) && Recorded(s.log, css, room) && k < |s.files|
    ensures var a, fs := |ReadBack(s.files[..k])|, ReadAll(s.files[k]);
            && a + |fs| <= |s.log| && s.log[a..a + |fs|] == fs
            && (forall i :: 0 <= i < |fs| ==> Playable(fs[i], room) && Encodes(fs[i], css[a + i]))
            && (fs != [] ==> Delimited(fs[0].data) && IsKeyFrame(fs[0].data))
  {
    hide DevOk, ReadAll, ReadBack, Playable, Encodes, IsKeyFrame, Delimited, CurFrames, PendFrames;
    var a, fs := |ReadBack(s.files[..k])|, ReadAll(s.files[k]);
    FileFrames(s.files, k);
    assert s.log[a..a + |fs|] == fs;
    forall i | 0 <= i < |fs| ensures Playable(fs[i], room) && Encodes(fs[i], css[a + i]) {
      assert fs[i] == s.log[a + i];
    }
    if fs != [] { EncodesDelimited(fs[0], css[a]); }
  }

  lemma {:induction false} EncodesDelimited(f: Frame, cs: seq<Coded>)
    requires Encodes(f, cs)
    ensures Delimited(f.data)
  {
    hide Delimited, Encode;
    EncodedDelimited(cs);
  }

  /** The same for every clean run of a new device in which every recording starts with a key frame. */
  lemma {:induction false} RunIsSent(a: bytes, b: bytes, t: nat, es: seq<Event>, css: seq<seq<Coded>>, room: nat)
    requires |a| == |b| < Pow256(4) && RECORD <= |a|
    requires var s := Sys(NewDevice(a, b, t), [], []);
             Feasible(s, es) && CleanRun(s, es) && KeyRun(s, es) && Recorded(Run(s, es).log, css, room)
    ensures var s := Run(Sys(NewDevice(a, b, t), [], []), es);
            forall k, p, started :: 0 <= k < |s.files| && ScreenOk(p, room) ==> FileSent(s, css, room, k, p, started)
  {
    hide Conserved, KeyStart, Feasible, CleanRun, KeyRun, Run, Recorded, ScreenOk, FileSent, Pow256;
    var s0 := Sys(NewDevice(a, b, t), [], []);
    StartConserved(a, b, t);
    StartKey(s0);
    RunConserves(s0, es);
    RunKeyStart(s0, es);
    var s := Run(s0, es);
    forall k, p, started | 0 <= k < |s.files| && ScreenOk(p, room) ensures FileSent(s, css, room, k, p, started) {
      RecordedIsSent(s, css, room, k, p, started);
    }
  }

  lemma {:induction false} StartKey(s: Sys)
    requires Conserved(s) && s.log == [] && s.files == []
    ensures KeyStart(s)
  {
    hide DevOk, Frames, ReadAll;
    DevOkCursor(s.dev);
    assert |Seen(s)| == |PendFrames(s.dev)| + |CurFrames(s.dev)|;
  }
}
