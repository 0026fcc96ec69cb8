/** Recordings that start with a key frame: every buffer and every file does. */
module StoreKeyStart {
  import opened Bytes
  import opened AnnexB
  import opened StoreImage
  import opened StoreDevice
  import opened StoreSteps
  import opened StoreRuns

  predicate KeyFirst(fs: seq<Frame>) { fs == [] || IsKeyFrame(fs[0].data) }

  predicate AllDelimited(fs: seq<Frame>) { forall i :: 0 <= i < |fs| ==> Delimited(fs[i].data) }

  /** The current buffer, the pending one and every file begin with a key frame. */
  ghost predicate KeyStart(s: Sys) {
    && DevOk(s.dev)
    && AllDelimited(CurFrames(s.dev)) && KeyFirst(CurFrames(s.dev))
    && KeyFirst(PendFrames(s.dev))
    && forall i :: 0 <= i < |s.files| ==> KeyFirst(ReadAll(s.files[i]))
  }

  /** Frames are delimited, the frame that opens a recording is a key frame, and a moving
      rotation finds the free slot unmarked. */
  predicate KeyStep(s: Sys, e: Event)
    requires Enabled(s, e) && Cur(s.dev).info + RECORD <= |Cur(s.dev).img|
  {
    match e
    case Write(mem, size, ms, now) =>
      && Delimited(mem[..size])
      && SlotClear(s.dev, mem, size)
      && (CurFrames(s.dev) == [] ==> KeyScan(mem, 0, size))
    case MeantStop(mem, size, ms) =>
      CurFrames(s.dev) == [] && !Full(s.dev, size) ==> Delimited(mem[..size]) && KeyScan(mem, 0, size)
    case _ => true
  }

  lemma {:induction false} WrittenKey(mem: bytes, size: nat)
    requires size + 4 <= |mem| && Delimited(mem[..size])
    ensures KeyScan(mem, 0, size) == IsKeyFrame(mem[..size])
  {
    KeyScanStored(mem, 0, mem[..size]);
  }

  lemma {:induction false} GroupStartsWithKey(b: Buf)
    requires BufOk(b) && GroupStart(b) >= 0 && AllDelimited(Frames(b))
    ensures 0 <= GroupStart(b) < |Frames(b)|
    ensures IsKeyFrame(Frames(b)[GroupStart(b)].data)
  {
    assert b.info + RECORD <= |b.img|;
    hide BufOk, Frames, GroupStart, SlotHolds, KeySlot, IsKeyFrame;
    GroupStartHeld(b);
    KeySlotStored(b.img, Frames(b), GroupStart(b));
  }

  lemma {:induction false} KeySlotStored(img: bytes, fs: seq<Frame>, k: nat)
    requires k < |fs| && SlotHolds(img, fs, k) && KeySlot(img, k) && Delimited(fs[k].data)
    ensures IsKeyFrame(fs[k].data)
  {
    hide IsKeyFrame, KeyScan, Delimited, Off;
    KeyScanStored(img, Off(fs, k), fs[k].data);
  }

  /** What a rotation leaves: both parts begin with a key frame, and nothing undelimited
      is in the new buffer. */
  lemma {:induction false} MakeRoomKeyFirst(d: Dev, mem: bytes, size: nat, now: nat)
    requires DevOk(d) && !d.stopping && size + 4 <= |mem| && RotationSafe(d, mem, size)
    requires Full(d, size) && SlotClear(d, mem, size)
    requires AllDelimited(Frames(Cur(d))) && KeyFirst(Frames(Cur(d)))
    ensures var d' := MakeRoom(d, mem, size, now);
            && DevOk(d') && KeyFirst(PendFrames(d'))
            && AllDelimited(Frames(Cur(d'))) && KeyFirst(Frames(Cur(d')))
            && (Frames(Cur(d')) == [] ==> KeyScan(mem, 0, size))
  {
    MakeRoomFrames(d, mem, size, now);
    CurOk(d);
    if KeyScan(mem, 0, size) {
      RotateKeyFrames(d, now);
    } else {
      GroupFound(d, mem, size);
      GroupKeyFirst(d, now);
    }
    hide DevOk, Delimited, IsKeyFrame, Frames, ReadAll, BufOk, KeyScan, Marked, GroupSafe, RotateKey, RotateGroup, KeyFirst, AllDelimited;
  }

  lemma {:induction false} GroupKeyFirst(d: Dev, now: nat)
    requires DevOk(d) && !d.stopping && GroupSafe(Cur(d)) && !Marked(Cur(d).img, Count(Cur(d)))
    requires AllDelimited(Frames(Cur(d))) && KeyFirst(Frames(Cur(d)))
    ensures var d' := RotateGroup(d, now);
            && Cur(d').info + RECORD <= |Cur(d').img|
            && KeyFirst(PendFrames(d'))
            && AllDelimited(Frames(Cur(d'))) && KeyFirst(Frames(Cur(d'))) && Frames(Cur(d')) != []
  {
    hide DevOk, Delimited, IsKeyFrame, Frames, ReadAll, BufOk, Moved, WithoutGroup, Marked, GroupStart, Reset, MoveSafe, LiveFrames, LiveFrom, Total, OffAt;
    CurOk(d);
    RotateGroupFrames(d, now);
    GroupStartsWithKey(Cur(d));
    BufOkRoom(Cur(RotateGroup(d, now)));
    HandedOver(d, now);
  }

  lemma {:induction false} HandedOver(d: Dev, now: nat)
    requires DevOk(d) && GroupSafe(Cur(d))
    ensures PendFrames(RotateGroup(d, now)) == ReadAll(At(RotateGroup(d, now), d.cur).img)
  {
    hide GroupSafe, BufOk, ReadAll, Moved, WithoutGroup, Reset, GroupStart, Pow256;
  }

  lemma {:induction false} CurOk(d: Dev)
    requires DevOk(d) && !d.stopping
    ensures BufOk(Cur(d)) && |d.ping.img| == |d.pong.img| >= RECORD
  {
    hide BufOk, Pow256;
  }

  lemma {:induction false} GroupFound(d: Dev, mem: bytes, size: nat)
    requires size + 4 <= |mem| && RotationSafe(d, mem, size) && Full(d, size) && !KeyScan(mem, 0, size)
    ensures GroupSafe(Cur(d)) && GroupStart(Cur(d)) >= 0
  {
  }

  lemma {:induction false} WriteKeyStart(s: Sys, mem: bytes, size: nat, ms: nat, now: nat)
    requires KeyStart(s) && Enabled(s, Write(mem, size, ms, now)) && KeyStep(s, Write(mem, size, ms, now))
    ensures KeyStart(Step(s, Write(mem, size, ms, now)))
  {
    var d := s.dev;
    WriteFrames(d, mem, size, ms, now);
    WrittenKey(mem, size);
    if Full(d, size) {
      MakeRoomKeyFirst(d, mem, size, now);
    }
    RoomKeyFirst(d, mem, size, ms, now);
    hide DevOk, Frames, ReadAll, WriteFrame, MakeRoom, PendFrames, Delimited, IsKeyFrame, KeyScan, KeyFirst, AllDelimited, SlotClear, Full;
  }

  /** The new frame at the end of what the rotation left. */
  lemma {:induction false} RoomKeyFirst(d: Dev, mem: bytes, size: nat, ms: nat, now: nat)
    requires size + 4 <= |mem| && RotationSafe(d, mem, size) && Delimited(mem[..size])
    requires Cur(MakeRoom(d, mem, size, now)).info + RECORD <= |Cur(MakeRoom(d, mem, size, now)).img|
    requires KeyScan(mem, 0, size) == IsKeyFrame(mem[..size])
    requires var fs := Frames(Cur(MakeRoom(d, mem, size, now)));
             AllDelimited(fs) && KeyFirst(fs) && (fs == [] ==> KeyScan(mem, 0, size))
    ensures var fs := Frames(Cur(MakeRoom(d, mem, size, now))) + [NewFrame(d, mem[..size], ms)];
            AllDelimited(fs) && KeyFirst(fs)
  {
    hide Frames, MakeRoom, Delimited, IsKeyFrame, KeyScan, RotationSafe;
  }

  lemma {:induction false} StopKeyStart(s: Sys, mem: bytes, size: nat, ms: nat)
    requires KeyStart(s) && Enabled(s, BeginStop(mem, size, ms))
    ensures KeyStart(Step(s, BeginStop(mem, size, ms)))
  {
    StopFrames(s.dev, mem, size, ms);
    hide DevOk, Frames, ReadAll, StopBegin, RecordsLost, Delimited, IsKeyFrame, PendFrames;
  }

  lemma {:induction false} MeantStopKeyStart(s: Sys, mem: bytes, size: nat, ms: nat)
    requires KeyStart(s) && Enabled(s, MeantStop(mem, size, ms)) && KeyStep(s, MeantStop(mem, size, ms))
    ensures KeyStart(Step(s, MeantStop(mem, size, ms)))
  {
    MeantStopFrames(s.dev, mem, size, ms);
    if Delimited(mem[..size]) { WrittenKey(mem, size); }
    hide DevOk, Frames, ReadAll, MeantStopBegin, Delimited, IsKeyFrame, PendFrames, KeyScan, Full;
  }

  lemma {:induction false} StepKeyStart(s: Sys, e: Event)
    requires KeyStart(s) && Enabled(s, e) && KeyStep(s, e)
    ensures KeyStart(Step(s, e))
  {
    match e
    case Write(mem, size, ms, now) => WriteKeyStart(s, mem, size, ms, now);
    case FlushTurn =>
    case BeginStop(mem, size, ms) => StopKeyStart(s, mem, size, ms);
    case MeantStop(mem, size, ms) => MeantStopKeyStart(s, mem, size, ms);
    case FinishStop => ResetOk(Cur(s.dev), 0);
  }

  // ------------------------------------------------------------ no access outside the buffers

  lemma {:induction false} SuffixTotal(fs: seq<Frame>, k: nat)
    requires k <= |fs|
    ensures Total(fs[k..]) <= Total(fs)
  {
    var gs := fs[k..];
    SuffixOff(fs, k, |gs|);
  }

  lemma {:induction false} SuffixOff(fs: seq<Frame>, k: nat, j: nat)
    requires k + j <= |fs|
    ensures Off(fs[k..], j) + Off(fs, k) == Off(fs, k + j)
    decreases j
  {
    if j > 0 { SuffixOff(fs, k, j - 1); }
  }

  /** A stored key frame passes the walk's test. */
  lemma {:induction false} FirstSlotKey(b: Buf)
    requires BufOk(b) && Frames(b) != [] && Delimited(Frames(b)[0].data) && IsKeyFrame(Frames(b)[0].data)
    ensures HasSlot(b.img, 0) && KeySlot(b.img, 0)
  {
    var fs := Frames(b);
    assert SlotHolds(b.img, fs, 0);
    TotalPrefix(fs, 1);
    assert Off(fs, 1) == Off(fs, 0) + |fs[0].data|;
    hide IsKeyFrame, KeyScan, Delimited, Frames, Holds;
    KeyScanStored(b.img, 0, fs[0].data);
  }

  lemma {:induction false} GroupRoom(b: Buf, k: nat)
    requires BufOk(b) && k <= |Frames(b)| && !Marked(b.img, Count(b))
    ensures MoveSafe(b.img, k, 0, 0)
    ensures Total(LiveFrames(b.img, k)) + (LiveFrom(b.img, k) + 1) * RECORD <= |b.img|
  {
    var fs := Frames(b);
    assert Count(b) == |fs|;
    hide BufOk, Frames, Holds, Marked, MoveSafe, LiveFrames, LiveFrom, Off;
    BufOkRoom(b);
    LiveFramesHeld(b.img, fs, k);
    MoveSafeHeld(b.img, fs, k, 0, 0);
    SuffixTotal(fs, k);
  }

  /** A buffer that starts with a key frame, with its free slot unmarked, can be rotated: the walk finds
      a key frame and no copy leaves a buffer. */
  lemma {:induction false} KeyGroupSafe(b: Buf)
    requires BufOk(b) && Frames(b) != [] && !Marked(b.img, Count(b))
    requires AllDelimited(Frames(b)) && KeyFirst(Frames(b))
    ensures GroupSafe(b)
  {
    hide BufOk, Frames, Marked, MoveSafe, LiveFrames, LiveFrom, Total, IsKeyFrame, Delimited, KeySlot, GroupStart, SlotHolds, Off, OffAt;
    BufOkRoom(b);
    FirstSlotKey(b);
    WalkFinds(b);
    GroupStartHeld(b);
    GroupRoom(b, GroupStart(b));
    OffInside(b, GroupStart(b));
  }

  lemma {:induction false} WalkFinds(b: Buf)
    requires BufOk(b) && Frames(b) != [] && HasSlot(b.img, 0) && KeySlot(b.img, 0)
    ensures GroupStart(b) >= 0
  {
    assert Count(b) == |Frames(b)|;
    hide BufOk, Frames, KeySlot, NewestKey, Holds;
    BufOkRoom(b);
    NewestKeyHeld(b.img, Frames(b), |Frames(b)| - 1);
  }

  lemma {:induction false} OffInside(b: Buf, k: nat)
    requires BufOk(b) && k < |Frames(b)|
    ensures Off(Frames(b), k) <= SlotAddr(|b.img|, k) + RECORD
  {
    hide BufOk, Frames, Holds, Off;
    BufOkRoom(b);
    TotalPrefix(Frames(b), k);
  }

  /** So in a key run a write can be made if and only if its frame fits behind what the rotation leaves. */
  lemma {:induction false} KeyWriteEnabled(s: Sys, mem: bytes, size: nat, ms: nat, now: nat)
    requires KeyStart(s) && !s.dev.stopping && size + 4 <= |mem| && ms < Pow256(8)
    requires SlotClear(s.dev, mem, size) && (Frames(Cur(s.dev)) == [] ==> KeyScan(mem, 0, size))
    ensures RotationSafe(s.dev, mem, size)
    ensures Enabled(s, Write(mem, size, ms, now)) <==> Fits(Cur(MakeRoom(s.dev, mem, size, now)), size)
  {
    hide BufOk, Frames, Marked, GroupSafe, KeyScan, IsKeyFrame, Delimited, KeyFirst, AllDelimited, Pow256, MakeRoom;
    if Full(s.dev, size) && !KeyScan(mem, 0, size) {
      KeyGroupSafe(Cur(s.dev));
    }
  }

  predicate KeyRun(s: Sys, es: seq<Event>)
    requires Feasible(s, es)
    decreases |es|
  {
    es == [] ||
    (Cur(s.dev).info + RECORD <= |Cur(s.dev).img| && KeyStep(s, es[0]) && KeyRun(Step(s, es[0]), es[1..]))
  }

  /** If every recording of a run starts with a key frame, its frames are delimited and every moving
      rotation finds the free slot unmarked, then in every reachable state the current buffer, the
      pending one and every non-empty file start with a key frame. */
  lemma {:induction false} RunKeyStart(s: Sys, es: seq<Event>)
    requires KeyStart(s) && Feasible(s, es) && KeyRun(s, es)
    ensures KeyStart(Run(s, es))
    decreases |es|
  {
    hide KeyStart, Step, KeyStep, Enabled;
    if es != [] {
      StepKeyStart(s, es[0]);
      RunKeyStart(Step(s, es[0]), es[1..]);
    }
  }

  // ------------------------------------------------------------ frame numbers

  /** Accepted frames are numbered from zero, modulo 2^32. */
  predicate Numbered(s: Sys) {
    && s.dev.frameIndex == |s.log| % 0x1_0000_0000
    && forall i :: 0 <= i < |s.log| ==> s.log[i].idx == i % 0x1_0000_0000
  }

  lemma {:induction false} SnocNumbered(log: seq<Frame>, next: nat, f: Frame)
    requires next == |log| % 0x1_0000_0000 && f.idx == next
    requires forall i :: 0 <= i < |log| ==> log[i].idx == i % 0x1_0000_0000
    ensures (next + 1) % 0x1_0000_0000 == |log + [f]| % 0x1_0000_0000
    ensures forall i :: 0 <= i < |log + [f]| ==> (log + [f])[i].idx == i % 0x1_0000_0000
  {
  }

  lemma {:induction false} WriteNumbered(s: Sys, mem: bytes, size: nat, ms: nat, now: nat)
    requires Numbered(s) && Enabled(s, Write(mem, size, ms, now))
    ensures Numbered(Step(s, Write(mem, size, ms, now)))
  {
    WriteIndex(s.dev, mem, size, ms, now);
    SnocNumbered(s.log, s.dev.frameIndex, NewFrame(s.dev, mem[..size], ms));
    hide WriteFrame, WriteSafe;
  }

  lemma {:induction false} StopNumbered(s: Sys, mem: bytes, size: nat, ms: nat)
    requires Numbered(s) && Enabled(s, BeginStop(mem, size, ms))
    ensures Numbered(Step(s, BeginStop(mem, size, ms)))
  {
    StopIndex(s.dev, mem, size, ms);
    if !Full(s.dev, size) { SnocNumbered(s.log, s.dev.frameIndex, NewFrame(s.dev, mem[..size], ms)); }
    hide StopBegin, Full;
  }

  lemma {:induction false} MeantStopNumbered(s: Sys, mem: bytes, size: nat, ms: nat)
    requires Numbered(s) && Enabled(s, MeantStop(mem, size, ms))
    ensures Numbered(Step(s, MeantStop(mem, size, ms)))
  {
    MeantStopIndex(s.dev, mem, size, ms);
    if !Full(s.dev, size) { SnocNumbered(s.log, s.dev.frameIndex, NewFrame(s.dev, mem[..size], ms)); }
    hide MeantStopBegin, Full;
  }

  lemma {:induction false} StepNumbered(s: Sys, e: Event)
    requires Numbered(s) && Enabled(s, e)
    ensures Numbered(Step(s, e))
  {
    hide WriteFrame, StopBegin, MeantStopBegin, Full, WriteSafe;
    match e
    case Write(mem, size, ms, now) => WriteNumbered(s, mem, size, ms, now);
    case BeginStop(mem, size, ms) => StopNumbered(s, mem, size, ms);
    case MeantStop(mem, size, ms) => MeantStopNumbered(s, mem, size, ms);
    case _ =>
  }

  lemma {:induction false} WriteIndex(d: Dev, mem: bytes, size: nat, ms: nat, now: nat)
    requires WriteSafe(d, mem, size, ms, now)
    ensures WriteFrame(d, mem, size, ms, now).frameIndex == (d.frameIndex + 1) % 0x1_0000_0000
  {
    assert MakeRoom(d, mem, size, now).frameIndex == d.frameIndex;
  }

  lemma {:induction false} StopIndex(d: Dev, mem: bytes, size: nat, ms: nat)
    requires StopSafe(d, mem, size, ms)
    ensures StopBegin(d, mem, size, ms).frameIndex ==
            if Full(d, size) then d.frameIndex else (d.frameIndex + 1) % 0x1_0000_0000
  {
  }

  lemma {:induction false} MeantStopIndex(d: Dev, mem: bytes, size: nat, ms: nat)
    requires StopSafe(d, mem, size, ms)
    ensures MeantStopBegin(d, mem, size, ms).frameIndex ==
            if Full(d, size) then d.frameIndex else (d.frameIndex + 1) % 0x1_0000_0000
  {
  }

  lemma {:induction false} RunNumbered(s: Sys, es: seq<Event>)
    requires Numbered(s) && Feasible(s, es)
    ensures Numbered(Run(s, es))
    decreases |es|
  {
    hide Numbered, Step, Enabled;
    if es != [] {
      StepNumbered(s, es[0]);
      RunNumbered(Step(s, es[0]), es[1..]);
    }
  }
}
