/** Where conservation fails: the conditions of the run theorem are needed. */
module StoreLimits {
  import opened Bytes
  import opened AnnexB
  import opened StoreImage
  import opened StoreDevice
  import opened StoreSteps
  import opened StoreRuns
  import opened StoreFlush

  lemma {:induction false} MarkAgree(img: bytes, img': bytes, lo: nat, hi: nat, j: nat)
    requires AgreeOutside(img, img', lo, hi) && HasSlot(img, j)
    requires SlotAddr(|img|, j) + 4 <= lo || hi <= SlotAddr(|img|, j)
    ensures Marked(img', j) == Marked(img, j)
  {
    FieldAgree(img, img', lo, hi, SlotAddr(|img|, j), 4);
  }

  lemma {:induction false} PutMark(img: bytes, off: nat, t: bytes, j: nat)
    requires HasSlot(img, j) && off + |t| <= |img|
    requires SlotAddr(|img|, j) + 4 <= off || off + |t| <= SlotAddr(|img|, j)
    ensures Marked(Put(img, off, t), j) == Marked(img, j)
  {
    PutAgrees(img, off, t);
    MarkAgree(img, Put(img, off, t), off, off + |t|, j);
  }

  lemma {:induction false} SecondSlot(b: Buf)
    requires BufOk(b) && |Frames(b)| >= 2
    ensures HasSlot(b.img, 1) && Marked(b.img, 1) && b.off <= b.info <= SlotAddr(|b.img|, 2)
  {
    assert SlotHolds(b.img, Frames(b), 1);
    hide Frames, SlotIs;
    BufOkRoom(b);
  }

  /** Reuse does not clear the old records: once the first life of a buffer has held two
      frames, the free slot below the first frame of its second life is marked. */
  lemma {:induction false} ReuseKeepsMark(b: Buf, t: nat, f: Frame)
    requires BufOk(b) && |Frames(b)| >= 2
    requires Fits(Reset(WithoutGap(b), t), |f.data|)
    ensures Marked(Append(Reset(WithoutGap(b), t), f).img, 1)
  {
    hide Marked, Put, Record;
    SecondSlot(b);
    var c := WithoutGap(b).img;
    PutMark(b.img, b.off, Zeros(b.info + RECORD - b.off), 1);
    PutMark(c, 0, f.data, 1);
    PutMark(Put(c, 0, f.data), SlotAddr(|c|, 0), Record(f.time, f.idx, 0, |f.data|), 1);
  }

  // ------------------------------------------------------------ concrete runs

  const CAP: nat := 1000

  /** A key frame: a three-byte start code, a header of type 5, filler, and four readable
      bytes behind it. */
  function KeyMem(size: nat): (m: bytes)
    requires size >= 4
    ensures |m| == size + 4
  {
    [0, 0, 1, 5] + Zeros(size)
  }

  lemma {:induction false} KeyMemIsKey(size: nat)
    requires size >= 4
    ensures KeyScan(KeyMem(size), 0, size)
  {
    var m := KeyMem(size);
    assert m[0] == 0 && m[1] == 0 && m[2] == 1 && m[3] == 5;
    assert CodeLen(m, 0) == 3;
  }

  function Start(): Sys { Sys(NewDevice(Zeros(CAP), Zeros(CAP), 0), [], []) }

  const SMALL: Event := Write(KeyMem(4), 4, 0, 1)
  const LARGE: Event := Write(KeyMem(750), 750, 0, 1)

  lemma {:induction false} FirstWrite()
    ensures Conserved(Start())
    ensures Enabled(Start(), SMALL)
    ensures Conserved(Step(Start(), SMALL))
    ensures var d := Step(Start(), SMALL).dev;
            && |Cur(d).img| == |At(d, Other(d.cur)).img| == CAP && Cur(d).off == 4 && Cur(d).info == CAP - 2 * RECORD
            && d.pending == None && !d.stopping
  {
    Pow256Facts();
    StartConserved(Zeros(CAP), Zeros(CAP), 0);
    WriteConserves(Start(), KeyMem(4), 4, 0, 1);
  }

  /** A stop right after one frame, with a frame that fits: neither frame is in the file. */
  lemma {:induction false} StopLosesFrames()
    ensures var s := Step(Start(), SMALL);
            && Conserved(s)
            && Enabled(s, BeginStop(KeyMem(4), 4, 0))
            && !Conserved(Step(s, BeginStop(KeyMem(4), 4, 0)))
  {
    hide Conserved, Step, Start, KeyMem, Pow256;
    FirstWrite();
    var s := Step(Start(), SMALL);
    SmallStop(s);
    StopConserves(s, KeyMem(4), 4, 0);
  }

  lemma {:induction false} SmallStop(s: Sys)
    requires Cur(s.dev).off == 4 && Cur(s.dev).info == CAP - 2 * RECORD && |Cur(s.dev).img| == CAP
    requires s.dev.pending == None && !s.dev.stopping
    ensures Enabled(s, BeginStop(KeyMem(4), 4, 0)) && !Full(s.dev, 4)
  {
    Pow256Facts();
  }

  lemma {:induction false} LargeWrite(s: Sys)
    requires Conserved(s) && !s.dev.stopping && |Cur(s.dev).img| == |At(s.dev, Other(s.dev.cur)).img| == CAP
    requires Cur(s.dev).info == CAP - 2 * RECORD && Cur(s.dev).off in {4, 750}
    ensures Enabled(s, LARGE) && SlotClear(s.dev, LARGE.mem, LARGE.size) && Full(s.dev, LARGE.size)
    ensures var d := Step(s, LARGE).dev;
            && !d.stopping && |Cur(d).img| == |At(d, Other(d.cur)).img| == CAP
            && Cur(d).info == CAP - 2 * RECORD && Cur(d).off == 750
            && d.pending == Some(s.dev.cur) && PendFrames(d) == Frames(Cur(s.dev))
            && |Frames(Cur(d))| == 1 && |Frames(Cur(d))[0].data| == 750
  {
    hide KeyMem, KeyScan, Frames, ReadAll, BufOk, Pow256, Cleared, GroupSafe;
    Pow256Facts();
    KeyMemIsKey(750);
    RotateKeyFrames(s.dev, 1);
    WriteFrames(s.dev, KeyMem(750), 750, 0, 1);
  }

  /** Two rotations without a turn of the file writer between them: the first buffer's frame
      is gone. */
  lemma {:induction false} SecondRotationLosesFrames()
    ensures var s := Step(Start(), SMALL);
            && Enabled(s, LARGE) && Conserved(Step(s, LARGE))
            && Enabled(Step(s, LARGE), LARGE) && !Conserved(Step(Step(s, LARGE), LARGE))
  {
    FirstWrite();
    var s := Step(Start(), SMALL);
    assert Frames(Cur(s.dev)) != [];
    hide Step, Start, Enabled, SlotClear, Frames, BufOk, PendFrames, Full, KeyMem;
    NothingPending(s.dev);
    LargeWrite(s);
    WriteConserves(s, KeyMem(750), 750, 0, 1);
    LargeWrite(Step(s, LARGE));
    WriteConserves(Step(s, LARGE), KeyMem(750), 750, 0, 1);
  }

  lemma {:induction false} NothingPending(d: Dev)
    requires d.pending == None
    ensures PendFrames(d) == []
  {
  }

  /** A stop with the first frame of a recording clears as many bytes behind the buffer as the frame
      is long. */
  lemma {:induction false} StopLeavesBuffer()
    ensures Enabled(Start(), BeginStop(KeyMem(4), 4, 0)) && !Full(Start().dev, 4)
    ensures Overrun(Cur(Start().dev), 4) == 4
  {
    Pow256Facts();
  }

  // ------------------------------------------------------------ a torn file

  /** Up to the first block of a file, and from there to its end. */
  const OPENING: seq<FineEvent> := [Produce(SMALL), Produce(LARGE), Begin]
  const TEARING: seq<FineEvent> := [Block(500), Produce(LARGE), Block(500)]

  /** A file is begun, written and about to be ended, and is not the buffer handed over. */
  ghost predicate Torn(s: Sys, opening: seq<FineEvent>, tearing: seq<FineEvent>) {
    && FineFeasible(Fine(s, Idle), opening)
    && var f := FineRun(Fine(s, Idle), opening);
    && FineOk(f) && Conserved(f.sys) && f.writer == Busy([])
    && FineFeasible(f, tearing) && NoEnd(tearing) && FineEnabled(FineRun(f, tearing), End)
    && FineRun(f, tearing).writer.file != PendImage(f.sys.dev)
  }

  /** Half of a file is written, a write rotates, the other half is written. */
  lemma {:induction false} TornRun()
    ensures Torn(Start(), OPENING, TEARING)
  {
    hide Conserved, Step, Enabled, Start, Frames, PendFrames, FineFeasible, FineRun, SlotClear, Full, Marked, DevOk;
    var s := SmallLarge();
    var f := Fine(s, Busy([]));
    var given, other := PendImage(s.dev), PendImage(Step(s, LARGE).dev);
    ThreeSteps(Fine(Start(), Idle), Produce(SMALL), Produce(LARGE), Begin);
    ThreeSteps(f, Block(500), Produce(LARGE), Block(500));
    SizesDiffer(given, other, given[..500] + other[500..]);
  }

  /** The buffer handed over holds a frame of 4 bytes, the one that takes its place a frame of 750. */
  lemma {:induction false} SmallLarge() returns (s: Sys)
    ensures Enabled(Start(), SMALL) && Enabled(Step(Start(), SMALL), LARGE) && s == Step(Step(Start(), SMALL), LARGE)
    ensures Conserved(s) && DevOk(s.dev) && Enabled(s, LARGE)
    ensures s.dev.pending.Some? && Step(s, LARGE).dev.pending.Some?
    ensures var given, other := PendImage(s.dev), PendImage(Step(s, LARGE).dev);
            && |given| == |other| == CAP && Marked(given, 0) && SizeAt(given, 0) == 4 && SizeAt(other, 0) == 750
  {
    hide DevOk, Seen, Enabled, Step, Start, Frames, ReadAll, SlotClear, Full, KeyMem, Marked;
    FirstWrite();
    FirstFrame();
    var s1 := Step(Start(), SMALL);
    NothingPending(s1.dev);
    LargeWrite(s1);
    WriteConserves(s1, KeyMem(750), 750, 0, 1);
    s := Step(s1, LARGE);
    LargeWrite(s);
    FirstSize(PendImage(s.dev));
    FirstSize(PendImage(Step(s, LARGE).dev));
  }

  lemma {:induction false} FirstFrame()
    ensures Enabled(Start(), SMALL)
    ensures var fs := Frames(Cur(Step(Start(), SMALL).dev)); |fs| == 1 && |fs[0].data| == 4
  {
    hide Quiet, Enabled, Step, Frames, KeyMem, Append;
    StartQuiet();
    PlainWrite(Start(), KeyMem(4), 4);
  }

  lemma {:induction false} FirstSize(img: bytes)
    requires |ReadAll(img)| == 1 && ReadAll(img)[0].data != []
    ensures Marked(img, 0) && SizeAt(img, 0) == |ReadAll(img)[0].data|
  {
    hide FieldAt;
    assert FirstFrames(img, 1) == FirstFrames(img, 0) + [FrameAt(img, 0)];
  }

  lemma {:induction false} ThreeSteps(f: Fine, a: FineEvent, b: FineEvent, c: FineEvent)
    requires FineEnabled(f, a) && FineEnabled(FineStep(f, a), b) && FineEnabled(FineStep(FineStep(f, a), b), c)
    ensures FineFeasible(f, [a, b, c])
    ensures FineRun(f, [a, b, c]) == FineStep(FineStep(FineStep(f, a), b), c)
  {
    hide FineEnabled, FineStep;
    assert [a, b, c][1..] == [b, c] && [b, c][1..] == [c] && [c][1..] == [];
    var f2 := FineStep(FineStep(f, a), b);
    assert FineFeasible(FineStep(f2, c), []) && FineFeasible(f2, [c]);
    assert FineRun(f2, [c]) == FineStep(f2, c);
  }

  lemma {:induction false} SizesDiffer(given: bytes, other: bytes, file: bytes)
    requires |given| == |other| == CAP && file == given[..500] + other[500..]
    requires SizeAt(given, 0) == 4 && SizeAt(other, 0) == 750
    ensures file != given
  {
    hide FieldAt;
    FieldAgree(other, file, 0, 500, SlotAddr(CAP, 0) + 24, 4);
  }

  // ------------------------------------------------------------ steps of longer runs

  /** A run extended by one step. */
  lemma {:induction false} Then(s: Sys, es: seq<Event>, e: Event)
    requires Feasible(s, es) && Enabled(Run(s, es), e)
    ensures Feasible(s, es + [e]) && Run(s, es + [e]) == Step(Run(s, es), e)
    decreases |es|
  {
    hide Enabled, Step;
    if es == [] {
      assert [] + [e] == [e] && [e][1..] == [];
    } else {
      Then(Step(s, es[0]), es[1..], e);
      assert (es + [e])[1..] == es[1..] + [e];
    }
  }

  /** Two buffers of CAP bytes, nothing pending, no stop under way. */
  ghost predicate Quiet(s: Sys) {
    Conserved(s) && !s.dev.stopping && s.dev.pending == None && |s.dev.ping.img| == |s.dev.pong.img| == CAP
  }

  /** A write that fits, on the device. */
  lemma {:induction false} PlainWrite(s: Sys, mem: bytes, size: nat)
    requires Quiet(s) && size + 4 <= |mem| && !Full(s.dev, size)
    ensures Enabled(s, Write(mem, size, 0, 1)) && Quiet(Step(s, Write(mem, size, 0, 1)))
    ensures var d, d', f := s.dev, Step(s, Write(mem, size, 0, 1)).dev, NewFrame(s.dev, mem[..size], 0);
            && Fits(Cur(d), size) && Cur(d').img == Append(Cur(d), f).img
            && Cur(d').off == Cur(d).off + size && Cur(d').info == Cur(d).info - RECORD
            && Frames(Cur(d')) == Frames(Cur(d)) + [f]
  {
    Pow256Facts();
    hide BufOk, Frames, ReadAll, KeyScan, Pow256, GroupSafe, Put, Record;
    var d := s.dev;
    NoRotation(d, mem, size, 1);
    NothingPending(d);
    WriteFrames(d, mem, size, 0, 1);
    WriteConserves(s, mem, size, 0, 1);
  }

  /** A key frame that does not fit, and the turn of the file writer after it. */
  lemma {:induction false} KeyRotation(s: Sys, size: nat)
    requires Quiet(s) && 4 <= size <= CAP - 2 * RECORD && Full(s.dev, size)
    ensures var e := Write(KeyMem(size), size, 0, 1);
            && Enabled(s, e) && Enabled(Step(s, e), FlushTurn) && Quiet(Step(Step(s, e), FlushTurn))
            && var d, d', f := s.dev, Step(Step(s, e), FlushTurn).dev, NewFrame(s.dev, KeyMem(size)[..size], 0);
            && d'.cur == Other(d.cur) && At(d', d.cur).img == WithoutGap(Cur(d)).img
            && Cur(d').img == Append(Reset(At(d, Other(d.cur)), 1), f).img
            && Cur(d').off == size && Cur(d').info == CAP - 2 * RECORD && |Frames(Cur(d'))| == 1
  {
    hide BufOk, Frames, ReadAll, KeyScan, KeyMem, Pow256, GroupSafe, Put, Record, Cleared, ReadBack;
    Pow256Facts();
    KeyMemIsKey(size);
    var d := s.dev;
    RotateKeyFrames(d, 1);
    NothingPending(d);
    WriteFrames(d, KeyMem(size), size, 0, 1);
    WriteConserves(s, KeyMem(size), size, 0, 1);
    FlushConserves(Step(s, Write(KeyMem(size), size, 0, 1)));
  }

  // ------------------------------------------------------------ a stale record

  /** Memory of a frame without any start code. */
  function PlainMem(size: nat): (m: bytes)
    ensures |m| == size + 4
  {
    Zeros(size + 4)
  }

  lemma {:induction false} PlainMemIsNotKey(size: nat, i: nat)
    ensures !KeyScan(PlainMem(size), i, size)
    decreases size - i
  {
    if i < size {
      assert CodeLen(PlainMem(size), i) == 0;
      PlainMemIsNotKey(size, i + 1);
    }
  }

  const TINY: Event := Write(PlainMem(1), 1, 0, 1)
  const WIDE: Event := Write(KeyMem(600), 600, 0, 1)
  const LAST: Event := Write(PlainMem(13), 13, 0, 1)

  /** Slot 2 carries the mark of a frame of one byte, slot 3 none. */
  predicate Stale(img: bytes) {
    |img| == CAP && Marked(img, 2) && OffAt(img, 2) + SizeAt(img, 2) <= CAP && SizeAt(img, 2) == 1 && !Marked(img, 3)
  }

  /** Changes outside slots 2 and 3 leave them as they are. */
  lemma {:induction false} StaleKept(img: bytes, off: nat, t: bytes)
    requires Stale(img) && off + |t| <= CAP && (off + |t| <= 616 || off >= 808)
    ensures Stale(Put(img, off, t))
  {
    var img', hi := Put(img, off, t), off + |t|;
    PutAgrees(img, off, t);
    hide Put, FieldAt, AgreeOutside;
    FieldAgree(img, img', off, hi, SlotAddr(CAP, 2), 4);
    FieldAgree(img, img', off, hi, SlotAddr(CAP, 2) + 20, 4);
    FieldAgree(img, img', off, hi, SlotAddr(CAP, 2) + 24, 4);
    FieldAgree(img, img', off, hi, SlotAddr(CAP, 3), 4);
  }

  lemma {:induction false} StaleAppend(b: Buf, f: Frame)
    requires Stale(b.img) && Fits(b, |f.data|) && b.off + |f.data| <= 616 && b.info >= 808
    ensures Stale(Append(b, f).img)
  {
    assert |b.img| == CAP;
    hide Stale, Put, Record;
    StaleKept(b.img, b.off, f.data);
    StaleKept(Put(b.img, b.off, f.data), b.info, Record(f.time, f.idx, b.off, |f.data|));
  }

  /** Three small frames. */
  lemma {:induction false} FirstLife(s: Sys)
    requires Quiet(s) && Frames(Cur(s.dev)) == [] && Cur(s.dev).off == 0 && Cur(s.dev).info == CAP - RECORD
    ensures Enabled(s, SMALL) && Enabled(Step(s, SMALL), TINY) && Enabled(Step(Step(s, SMALL), TINY), TINY)
    ensures var s' := Step(Step(Step(s, SMALL), TINY), TINY);
            && Quiet(s') && Cur(s'.dev).off == 6 && Cur(s'.dev).info == CAP - 4 * RECORD
            && |Frames(Cur(s'.dev))| == 3 && |Frames(Cur(s'.dev))[2].data| == 1
  {
    hide Quiet, Enabled, Step, Frames, Append, KeyMem, PlainMem;
    PlainWrite(s, KeyMem(4), 4);
    var s1 := Step(s, SMALL);
    PlainWrite(s1, PlainMem(1), 1);
    var s2 := Step(s1, TINY);
    PlainWrite(s2, PlainMem(1), 1);
  }

  /** Handed over, the buffer keeps the mark of its third frame. */
  lemma {:induction false} LeftStale(b: Buf)
    requires BufOk(b) && |b.img| == CAP && |Frames(b)| == 3 && |Frames(b)[2].data| == 1
    ensures Stale(WithoutGap(b).img)
  {
    var fs := Frames(b);
    assert fs[..3] == fs;
    assert b.off <= b.info <= |b.img| - RECORD;
    hide Frames, Cleared, FieldAt;
    BufOkRoom(b);
    TotalPrefix(fs, 3);
    OffMonotone(fs, 2, 3);
    ClearedHolds(b.img, fs, 3, b.off, b.info + RECORD);
    var img := WithoutGap(b).img;
    assert Holds(img, fs) && SlotHolds(img, fs, 2);
  }

  /** Two rotations on key frames, each followed by the file writer: the first buffer is in use again. */
  lemma {:induction false} SecondLife(s: Sys)
    requires Quiet(s) && Cur(s.dev).off == 6 && Cur(s.dev).info == CAP - 4 * RECORD
    requires |Frames(Cur(s.dev))| == 3 && |Frames(Cur(s.dev))[2].data| == 1
    ensures Enabled(s, WIDE) && Enabled(Step(s, WIDE), FlushTurn)
    ensures var t := Step(Step(s, WIDE), FlushTurn);
            && Enabled(t, WIDE) && Enabled(Step(t, WIDE), FlushTurn)
            && var s' := Step(Step(t, WIDE), FlushTurn);
            && Quiet(s') && Cur(s'.dev).off == 600 && Cur(s'.dev).info == CAP - 2 * RECORD
            && |Frames(Cur(s'.dev))| == 1 && Stale(Cur(s'.dev).img)
  {
    QuietOk(s);
    hide Quiet, Enabled, Step, Frames, Append, KeyMem, Stale, WithoutGap, BufOk;
    LeftStale(Cur(s.dev));
    KeyRotation(s, 600);
    var t := Step(Step(s, WIDE), FlushTurn);
    KeyRotation(t, 600);
    var b, f := Reset(At(t.dev, Other(t.dev.cur)), 1), NewFrame(t.dev, KeyMem(600)[..600], 0);
    StaleAppend(b, f);
  }

  lemma {:induction false} QuietOk(s: Sys)
    requires Quiet(s)
    ensures BufOk(Cur(s.dev)) && |Cur(s.dev).img| == CAP
  {
    hide BufOk, Pow256;
  }

  /** One more key frame, and slot 2 is the free slot. */
  lemma {:induction false} KeyAgain(s: Sys)
    requires Quiet(s) && Cur(s.dev).off == 600 && Cur(s.dev).info == CAP - 2 * RECORD
    requires |Frames(Cur(s.dev))| == 1 && Stale(Cur(s.dev).img)
    ensures Enabled(s, SMALL)
    ensures var s' := Step(s, SMALL);
            && Quiet(s') && Cur(s'.dev).off == 604 && Cur(s'.dev).info == CAP - 3 * RECORD
            && Stale(Cur(s'.dev).img) && |Frames(Cur(s'.dev))| == 2 && Frames(Cur(s'.dev))[1].data == [0, 0, 1, 5]
  {
    assert KeyMem(4)[..4] == [0, 0, 1, 5];
    hide Quiet, Enabled, Step, Frames, Append, KeyMem, Stale;
    PlainWrite(s, KeyMem(4), 4);
    StaleAppend(Cur(s.dev), NewFrame(s.dev, KeyMem(4)[..4], 0));
  }

  /** The group of such a buffer: the walk stops at slot 1 and the copy goes on through slot 2. */
  lemma {:induction false} StaleGroup(b: Buf)
    requires BufOk(b) && Stale(b.img) && b.off == 604 && |Frames(b)| == 2 && Frames(b)[1].data == [0, 0, 1, 5]
    ensures GroupSafe(b) && GroupStart(b) == 1 && LiveFrom(b.img, 1) == 2 && Total(LiveFrames(b.img, 1)) == 5
    ensures Marked(b.img, Count(b)) && SlotAddr(CAP, 2) == b.info
  {
    hide Frames;
    var img, fs := b.img, Frames(b);
    assert Count(b) == 2 by { BufOkRoom(b); }
    assert SlotHolds(img, fs, 1);
    assert Off(fs, 2) == Off(fs, 1) + 4 by { TotalPrefix(fs, 2); }
    assert fs[..2] == fs;
    TotalPrefix(fs, 2);
    SlotOneKey(img, fs);
    StaleLive(img);
  }

  lemma {:induction false} SlotOneKey(img: bytes, fs: seq<Frame>)
    requires |img| == CAP && |fs| == 2 && SlotHolds(img, fs, 1) && Off(fs, 1) == 600 && fs[1].data == [0, 0, 1, 5]
    ensures Marked(img, 1) && KeySlot(img, 1) && OffAt(img, 1) == 600 && SizeAt(img, 1) == 4
  {
    HasAtByte(img, 600, fs[1].data, 0);
    HasAtByte(img, 600, fs[1].data, 1);
    HasAtByte(img, 600, fs[1].data, 2);
    HasAtByte(img, 600, fs[1].data, 3);
    assert CodeLen(img, 600) == 3;
    assert KeyScan(img, 600, 604);
  }

  lemma {:induction false} StaleLive(img: bytes)
    requires Stale(img) && Marked(img, 1) && OffAt(img, 1) == 600 && SizeAt(img, 1) == 4
    ensures MoveSafe(img, 1, 0, 0) && LiveFrom(img, 1) == 2 && Total(LiveFrames(img, 1)) == 5
  {
    hide FieldAt;
    assert MoveSafe(img, 3, 5, 2);
    assert MoveSafe(img, 2, 4, 1);
    assert LiveFrom(img, 3) == 0 && LiveFrom(img, 2) == 1;
    var fs := LiveFrames(img, 1);
    assert LiveFrames(img, 2) == [FrameAt(img, 2)] + LiveFrames(img, 3);
    assert fs[0] == FrameAt(img, 1) && fs[1] == FrameAt(img, 2);
    assert Off(fs, 2) == Off(fs, 1) + |fs[1].data| && Off(fs, 1) == Off(fs, 0) + |fs[0].data|;
  }

  /** A moving rotation then copies the stale frame. */
  lemma {:induction false} StaleCopied(s: Sys)
    requires Quiet(s) && Cur(s.dev).off == 604 && Cur(s.dev).info == CAP - 3 * RECORD
    requires Stale(Cur(s.dev).img) && |Frames(Cur(s.dev))| == 2 && Frames(Cur(s.dev))[1].data == [0, 0, 1, 5]
    ensures Enabled(s, LAST) && PendClear(s.dev, LAST.size) && !Conserved(Step(s, LAST))
  {
    Pow256Facts();
    QuietOk(s);
    PlainMemIsNotKey(13, 0);
    hide BufOk, Frames, ReadAll, Stale, KeyScan, PlainMem, Pow256, GroupSafe, GroupStart, LiveFrom, LiveFrames, Total, MoveFrom, MoveSafe, WithoutGroup, Marked, Put;
    StaleGroup(Cur(s.dev));
    NothingPending(s.dev);
    LastEnabled(s);
    WriteConserves(s, PlainMem(13), 13, 0, 1);
  }

  lemma {:induction false} LastEnabled(s: Sys)
    requires Quiet(s) && Cur(s.dev).off == 604 && Cur(s.dev).info == CAP - 3 * RECORD && !KeyScan(PlainMem(13), 0, 13)
    requires GroupSafe(Cur(s.dev)) && GroupStart(Cur(s.dev)) == 1
    requires LiveFrom(Cur(s.dev).img, 1) == 2 && Total(LiveFrames(Cur(s.dev).img, 1)) == 5
    ensures Enabled(s, LAST) && Full(s.dev, LAST.size)
  {
    Pow256Facts();
    QuietOk(s);
    hide BufOk, Frames, ReadAll, KeyScan, PlainMem, Pow256, GroupSafe, GroupStart, LiveFrom, LiveFrames, Total, MoveFrom, MoveSafe, WithoutGroup, Marked, Put, Cleared;
  }

  lemma {:induction false} StartQuiet()
    ensures Quiet(Start()) && Frames(Cur(Start().dev)) == [] && Cur(Start().dev).off == 0 && Cur(Start().dev).info == CAP - RECORD
  {
    Pow256Facts();
    StartConserved(Zeros(CAP), Zeros(CAP), 0);
    ResetOk(Buf(Zeros(CAP), 0, 0, 0), 0);
  }

  /** A run of a new device that keeps every frame, and a write that then repeats one although nothing
      is pending: the reused buffer still carries the mark of a frame of its former life. */
  lemma {:induction false} StaleRun() returns (es: seq<Event>)
    ensures Feasible(Start(), es) && Conserved(Run(Start(), es))
    ensures var s := Run(Start(), es);
            Enabled(s, LAST) && PendClear(s.dev, LAST.size) && !Conserved(Step(s, LAST))
  {
    hide Quiet, Enabled, Step, Frames, Stale, Feasible, Run, Start, PendClear;
    StartQuiet();
    NoSteps(Start());
    FirstLife(Start());
    es := [];
    es := ThenThree(es, SMALL, TINY, TINY);
    var s3 := Run(Start(), es);
    SecondLife(s3);
    es := ThenFour(es, WIDE, FlushTurn, WIDE, FlushTurn);
    var s7 := Run(Start(), es);
    KeyAgain(s7);
    Then(Start(), es, SMALL);
    es := es + [SMALL];
    StaleCopied(Run(Start(), es));
    QuietConserved(Run(Start(), es));
  }

  lemma {:induction false} QuietConserved(s: Sys)
    requires Quiet(s)
    ensures Conserved(s)
  {
  }

  lemma {:induction false} ThenThree(es: seq<Event>, a: Event, b: Event, c: Event) returns (es': seq<Event>)
    requires Feasible(Start(), es)
    requires var s := Run(Start(), es); Enabled(s, a) && Enabled(Step(s, a), b) && Enabled(Step(Step(s, a), b), c)
    ensures Feasible(Start(), es') && Run(Start(), es') == Step(Step(Step(Run(Start(), es), a), b), c)
  {
    hide Enabled, Step, Feasible, Run, Start;
    Then(Start(), es, a);
    Then(Start(), es + [a], b);
    Then(Start(), es + [a] + [b], c);
    es' := es + [a] + [b] + [c];
  }

  lemma {:induction false} ThenFour(es: seq<Event>, a: Event, b: Event, c: Event, d: Event) returns (es': seq<Event>)
    requires Feasible(Start(), es)
    requires var s := Run(Start(), es);
             && Enabled(s, a) && Enabled(Step(s, a), b) && Enabled(Step(Step(s, a), b), c)
             && Enabled(Step(Step(Step(s, a), b), c), d)
    ensures Feasible(Start(), es') && Run(Start(), es') == Step(Step(Step(Step(Run(Start(), es), a), b), c), d)
  {
    hide Enabled, Step, Feasible, Run, Start;
    es' := ThenThree(es, a, b, c);
    Then(Start(), es', d);
    es' := es' + [d];
  }
}
