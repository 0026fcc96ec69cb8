/** Whole runs of a recording device: frames are accepted, buffers are handed over and
    flushed, recordings are stopped. */
module StoreRuns {
  import opened Bytes
  import opened AnnexB
  import opened StoreImage
  import opened StoreDevice
  import opened StoreSteps

  /** The device, the files written so far and the frames accepted so far. */
  datatype Sys = Sys(dev: Dev, files: seq<bytes>, log: seq<Frame>)

  datatype Event =
    | Write(mem: bytes, size: nat, ms: nat, now: nat)
    | FlushTurn
    | BeginStop(mem: bytes, size: nat, ms: nat)
    | MeantStop(mem: bytes, size: nat, ms: nat)
    | FinishStop

  /** The step can be taken without leaving a buffer or waiting. */
  predicate Enabled(s: Sys, e: Event) {
    match e
    case Write(mem, size, ms, now) => !s.dev.stopping && WriteSafe(s.dev, mem, size, ms, now)
    case FlushTurn => true
    case BeginStop(mem, size, ms) => StopSafe(s.dev, mem, size, ms)
    case MeantStop(mem, size, ms) => StopSafe(s.dev, mem, size, ms)
    case FinishStop => s.dev.stopping && s.dev.pending == None && |Cur(s.dev).img| >= RECORD
  }

  function Step(s: Sys, e: Event): (s': Sys)
    requires Enabled(s, e)
  {
    match e
    case Write(mem, size, ms, now) =>
      Sys(WriteFrame(s.dev, mem, size, ms, now), s.files, s.log + [NewFrame(s.dev, mem[..size], ms)])
    case FlushTurn =>
      Sys(Flush(s.dev), if FlushedFile(s.dev).Some? then s.files + [FlushedFile(s.dev).value] else s.files, s.log)
    case BeginStop(mem, size, ms) =>
      Sys(StopBegin(s.dev, mem, size, ms), s.files,
          if Full(s.dev, size) then s.log else s.log + [NewFrame(s.dev, mem[..size], ms)])
    case MeantStop(mem, size, ms) =>
      Sys(MeantStopBegin(s.dev, mem, size, ms), s.files,
          if Full(s.dev, size) then s.log else s.log + [NewFrame(s.dev, mem[..size], ms)])
    case FinishStop =>
      s.(dev := StopEnd(s.dev))
  }

  // ------------------------------------------------------------ what can be read back

  function ReadBack(files: seq<bytes>): seq<Frame> {
    if files == [] then [] else ReadBack(files[..|files| - 1]) + ReadAll(files[|files| - 1])
  }

  function PendFrames(d: Dev): seq<Frame> {
    if d.pending.Some? then ReadAll(At(d, d.pending.value).img) else []
  }

  /** While a stop waits for its file the current buffer is the pending one. */
  function CurFrames(d: Dev): seq<Frame>
    requires Cur(d).info + RECORD <= |Cur(d).img|
  {
    if d.stopping then [] else Frames(Cur(d))
  }

  /** Flushed files, then the pending buffer, then the current one. */
  function Seen(s: Sys): seq<Frame>
    requires Cur(s.dev).info + RECORD <= |Cur(s.dev).img|
  {
    ReadBack(s.files) + PendFrames(s.dev) + CurFrames(s.dev)
  }

  /** None lost, none repeated, in order. */
  ghost predicate Conserved(s: Sys) {
    DevOk(s.dev) && Seen(s) == s.log
  }

  // ------------------------------------------------------------ one step

  predicate SlotClear(d: Dev, mem: bytes, size: nat)
    requires size + 4 <= |mem| && Cur(d).info + RECORD <= |Cur(d).img|
  {
    Full(d, size) && !KeyScan(mem, 0, size) ==> !Marked(Cur(d).img, Count(Cur(d)))
  }

  lemma {:induction false} MakeRoomFrames(d: Dev, mem: bytes, size: nat, now: nat)
    requires DevOk(d) && !d.stopping && size + 4 <= |mem| && RotationSafe(d, mem, size)
    requires Full(d, size)
    ensures var d' := MakeRoom(d, mem, size, now);
            && DevOk(d') && !d'.stopping && d'.frameIndex == d.frameIndex
            && Frames(Cur(d)) <= PendFrames(d') + Frames(Cur(d'))
            && (PendFrames(d') + Frames(Cur(d')) == Frames(Cur(d)) <==> SlotClear(d, mem, size))
  {
    hide KeyScan, BufOk, Frames, ReadAll, GroupSafe, GroupStart, Marked, Moved, WithoutGroup, WithoutGap, Reset, Pow256;
    var d' := MakeRoom(d, mem, size, now);
    var fs := Frames(Cur(d));
    MakeRoomShape(d, mem, size, now);
    if KeyScan(mem, 0, size) {
      RotateKeyFrames(d, now);
      assert fs + [] == fs;
    } else {
      var k := GroupStart(Cur(d));
      RotateGroupFrames(d, now);
      BufOkRoom(Cur(d'));
      SplitRejoins(fs, k, Frames(Cur(d')));
    }
    RotatedOk(d, d');
  }

  predicate Rotated(d: Dev, d': Dev) {
    && d'.cur == Other(d.cur) && d'.pending == Some(d.cur)
    && d'.stopping == d.stopping && d'.frameIndex == d.frameIndex
    && |d'.ping.img| == |d'.pong.img| == |d.ping.img|
  }

  /** What a rotation leaves alone. */
  lemma {:induction false} MakeRoomShape(d: Dev, mem: bytes, size: nat, now: nat)
    requires size + 4 <= |mem| && RotationSafe(d, mem, size) && Full(d, size)
    ensures Rotated(d, MakeRoom(d, mem, size, now))
  {
    hide KeyScan, Marked, GroupStart, MoveFrom, LiveFrames, LiveFrom, Put, Cleared, MoveSafe, Total, OffAt;
  }

  lemma {:induction false} RotatedOk(d: Dev, d': Dev)
    requires DevOk(d) && !d.stopping && Rotated(d, d') && BufOk(Cur(d'))
    ensures DevOk(d')
  {
    hide Holds, Frames, Pow256;
  }

  lemma {:induction false} SplitRejoins(fs: seq<Frame>, k: nat, gs: seq<Frame>)
    requires k <= |fs| && fs[k..] <= gs
    ensures fs <= fs[..k] + gs
    ensures fs[..k] + gs == fs <==> gs == fs[k..]
  {
    assert fs == fs[..k] + fs[k..];
    if fs[..k] + gs == fs {
      assert gs == (fs[..k] + gs)[k..];
    }
  }

  lemma {:induction false} StampKeeps(b: Buf, now: nat)
    requires BufOk(b)
    ensures BufOk(b.(start := now)) && Frames(b.(start := now)) == Frames(b)
  {
  }

  lemma {:induction false} StampOk(d: Dev, now: nat)
    requires DevOk(d) && !d.stopping
    ensures var d' := Stamp(d, now);
            && DevOk(d') && !d'.stopping && d'.frameIndex == d.frameIndex
            && Frames(Cur(d')) == Frames(Cur(d)) && PendFrames(d') == PendFrames(d)
            && Cur(d').img == Cur(d).img && Cur(d').off == Cur(d).off && Cur(d').info == Cur(d).info
  {
    StampKeeps(Cur(d), now);
    hide BufOk, Frames, ReadAll;
  }

  lemma {:induction false} StoreFrames(d: Dev, data: bytes, ms: nat)
    requires DevOk(d) && !d.stopping && Fits(Cur(d), |data|) && ms < Pow256(8)
    ensures var d' := Store(d, data, ms);
            && DevOk(d') && !d'.stopping
            && Frames(Cur(d')) == Frames(Cur(d)) + [NewFrame(d, data, ms)]
            && PendFrames(d') == PendFrames(d)
  {
    Pow256Facts();
    AppendOk(Cur(d), NewFrame(d, data, ms));
    AppendCursors(Cur(d), NewFrame(d, data, ms));
    hide BufOk, Frames, ReadAll, Append, Pow256;
  }

  lemma {:induction false} AppendCursors(b: Buf, f: Frame)
    requires Fits(b, |f.data|)
    ensures var r := Append(b, f); |r.img| == |b.img| && r.info == b.info - RECORD && r.off <= r.info
  {
  }

  /** Every write keeps the device in order: in particular the data cursor never passes
      the index cursor. */
  lemma {:induction false} WriteFrames(d: Dev, mem: bytes, size: nat, ms: nat, now: nat)
    requires DevOk(d) && !d.stopping && WriteSafe(d, mem, size, ms, now)
    ensures var d', m := WriteFrame(d, mem, size, ms, now), MakeRoom(d, mem, size, now);
            && DevOk(d') && !d'.stopping && DevOk(m) && !m.stopping
            && Frames(Cur(d')) == Frames(Cur(m)) + [NewFrame(d, mem[..size], ms)]
            && PendFrames(d') == PendFrames(m)
  {
    var m := MakeRoom(d, mem, size, now);
    if Full(d, size) {
      MakeRoomFrames(d, mem, size, now);
    }
    hide DevOk, Frames, PendFrames, Fits, MakeRoom, Store, Stamp;
    StampOk(m, now);
    FitsSame(Cur(m), Cur(Stamp(m, now)), size);
    StoreFrames(Stamp(m, now), mem[..size], ms);
  }

  lemma {:induction false} FitsSame(a: Buf, b: Buf, size: nat)
    requires Fits(a, size) && a.img == b.img && a.off == b.off && a.info == b.info
    ensures Fits(b, size)
  {
  }

  predicate PendClear(d: Dev, size: nat) { Full(d, size) ==> PendFrames(d) == [] }

  /** The list arithmetic of a rotation: `p` was pending, `c` current; afterwards `p'` is
      pending and `c'` current, and the frame `f` has been appended. */
  lemma {:induction false} RotationArithmetic(a: seq<Frame>, p: seq<Frame>, c: seq<Frame>, p': seq<Frame>, c': seq<Frame>, f: Frame)
    requires c <= p' + c'
    ensures p' + c' == c ==> (a + p' + (c' + [f]) == a + p + c + [f] <==> p == [])
    ensures p == [] ==> (a + p' + (c' + [f]) == a + p + c + [f] <==> p' + c' == c)
  {
    assert a + p' + (c' + [f]) == a + (p' + c') + [f];
    if p' + c' == c && p == [] {
      assert a + p + c == a + c;
    }
    if p == [] && |p' + c'| == |c| {
      assert p' + c' == c;
    }
    assert |a + p' + (c' + [f])| == |a| + |p' + c'| + 1;
    assert |a + p + c + [f]| == |a| + |p| + |c| + 1;
  }

  /** One write keeps every frame, in order and once, exactly when the rotation it may cause
      finds the pending buffer flushed (or empty) and, when it moves a group, the free slot
      unmarked. */
  lemma {:induction false} WriteConserves(s: Sys, mem: bytes, size: nat, ms: nat, now: nat)
    requires Conserved(s) && Enabled(s, Write(mem, size, ms, now))
    ensures var s' := Step(s, Write(mem, size, ms, now));
            && DevOk(s'.dev)
            && (SlotClear(s.dev, mem, size) ==> (Conserved(s') <==> PendClear(s.dev, size)))
            && (PendClear(s.dev, size) ==> (Conserved(s') <==> SlotClear(s.dev, mem, size)))
  {
    hide DevOk, Frames, PendFrames, Full, MakeRoom, WriteFrame, SlotClear, ReadBack, NewFrame, WriteSafe, ReadAll, RotationSafe;
    var d := s.dev;
    WriteSafeParts(d, mem, size, ms, now);
    DevOkCursor(d);
    var m := MakeRoom(d, mem, size, now);
    var f := NewFrame(d, mem[..size], ms);
    WriteFrames(d, mem, size, ms, now);
    DevOkCursor(WriteFrame(d, mem, size, ms, now));
    DevOkCursor(m);
    var a, p, c := ReadBack(s.files), PendFrames(d), Frames(Cur(d));
    if Full(d, size) {
      MakeRoomFrames(d, mem, size, now);
      RotationArithmetic(a, p, c, PendFrames(m), Frames(Cur(m)), f);
    } else {
      NoRotation(d, mem, size, now);
      NothingMoves(d, mem, size);
      assert a + p + (c + [f]) == a + p + c + [f];
    }
  }

  lemma {:induction false} WriteSafeParts(d: Dev, mem: bytes, size: nat, ms: nat, now: nat)
    requires WriteSafe(d, mem, size, ms, now)
    ensures size + 4 <= |mem| && RotationSafe(d, mem, size)
  {
    hide RotationSafe, MakeRoom, Stamp, Fits;
  }

  lemma {:induction false} DevOkCursor(d: Dev)
    requires DevOk(d)
    ensures Cur(d).info + RECORD <= |Cur(d).img|
  {
    hide BufOk, Pow256;
  }

  lemma {:induction false} NothingMoves(d: Dev, mem: bytes, size: nat)
    requires size + 4 <= |mem| && Cur(d).info + RECORD <= |Cur(d).img| && !Full(d, size)
    ensures SlotClear(d, mem, size)
  {
  }

  // ------------------------------------------------------------ the file writer's turn

  lemma {:induction false} FlushConserves(s: Sys)
    requires Conserved(s)
    ensures Conserved(Step(s, FlushTurn))
  {
    var s' := Step(s, FlushTurn);
    var d := s.dev;
    if d.pending.Some? && Marked(At(d, d.pending.value).img, 0) {
      assert s'.files[..|s'.files| - 1] == s.files;
      assert ReadBack(s'.files) + [] == ReadBack(s.files) + PendFrames(d);
    } else {
      assert PendFrames(d) == [];
    }
  }

  lemma {:induction false} FinishConserves(s: Sys)
    requires Conserved(s) && Enabled(s, FinishStop)
    ensures Conserved(Step(s, FinishStop))
  {
    ResetOk(Cur(s.dev), 0);
  }

  // ------------------------------------------------------------ stopping

  /** Of n records, those that the stop's clearing destroys beside the appended frame's own: one for
      every 96 bytes of the frame begun. */
  function RecordsLost(size: nat, n: nat): (k: nat)
    ensures k <= n
  {
    var k := (size + RECORD - 1) / RECORD;
    if k <= n then k else n
  }

  /** The clearing of a stop leaves the buffer exactly when its frame is larger than the records
      stored before it. */
  lemma {:induction false} StopOverruns(b: Buf, size: nat)
    requires BufOk(b)
    ensures Overrun(b, size) == if size > RECORD * |Frames(b)| then size - RECORD * |Frames(b)| else 0
  {
    hide BufOk, Frames, Holds, Room, Off;
    BufOkRoom(b);
  }

  /** The image a stop hands over, when its frame was appended: the appended frame's record is
      always cleared, and with it one more record for every 96 bytes of the frame begun. */
  lemma {:induction false} StopImage(b: Buf, f: Frame)
    requires BufOk(b) && Fits(b, |f.data|) && Encodable(f) && |b.img| < Pow256(4)
    ensures var r, fs := AppendOverCleared(b, f), Frames(b);
            && ReadAll(r.img) == fs[..|fs| - RecordsLost(|f.data|, |fs|)]
            && |r.img| == |b.img| && r.off <= r.info <= |r.img| - RECORD
  {
    hide BufOk, Frames, ReadAll, Cleared, Append, Encodable, Pow256, RecordsLost;
    AppendOk(b, f);
    AppendCursors(b, f);
    BufOkRoom(b);
    StopImageAt(Append(b, f), Frames(b), f, b.info + RECORD + |f.data| - Overrun(b, |f.data|));
  }

  lemma {:induction false} StopImageAt(a: Buf, fs: seq<Frame>, f: Frame, hi: nat)
    requires BufOk(a) && Frames(a) == fs + [f]
    requires hi == if a.info + 2 * RECORD + |f.data| <= |a.img| then a.info + 2 * RECORD + |f.data| else |a.img|
    ensures a.off <= hi && ReadAll(Cleared(a.img, a.off, hi)) == fs[..|fs| - RecordsLost(|f.data|, |fs|)]
  {
    hide BufOk, Frames, Holds, Room, Off, ReadAll, Cleared, RecordsLost;
    var gs, k := fs + [f], |fs| - RecordsLost(|f.data|, |fs|);
    BufOkRoom(a);
    StopSlot(|a.img|, |fs|, |f.data|);
    OffGrows(gs, k);
    assert gs[..k] == fs[..k];
    ClearedImage(a.img, gs, k, a.off, hi);
  }

  lemma {:induction false} OffGrows(fs: seq<Frame>, k: nat)
    requires k <= |fs|
    ensures Off(fs, k) <= Off(fs, |fs|)
  {
    TotalPrefix(fs, k);
    TotalPrefix(fs, |fs|);
  }

  lemma {:induction false} StopSlot(cap: nat, n: nat, size: nat)
    ensures var hi, k := SlotAddr(cap, n) + RECORD + size, n - RecordsLost(size, n);
            && SlotAddr(cap, k) < hi && SlotAddr(cap, k) < cap
            && (hi <= cap ==> hi <= SlotAddr(cap, k) + RECORD)
            && (hi > cap ==> k == 0)
  {
  }

  lemma {:induction false} StopFrames(d: Dev, mem: bytes, size: nat, ms: nat)
    requires DevOk(d) && StopSafe(d, mem, size, ms)
    ensures var d', fs := StopBegin(d, mem, size, ms), Frames(Cur(d));
            && DevOk(d') && d'.stopping
            && PendFrames(d') == if Cur(d).off + size + 96 > Cur(d).info then fs else fs[..|fs| - RecordsLost(size, |fs|)]
  {
    Pow256Facts();
    hide BufOk, Frames, ReadAll, AppendOverCleared, WithoutGap, RecordsLost, Pow256;
    if Full(d, size) {
      GapCleared(Cur(d));
      GapCursors(Cur(d));
    } else {
      StopImage(Cur(d), NewFrame(d, mem[..size], ms));
    }
  }

  lemma {:induction false} GapCursors(b: Buf)
    requires b.off <= b.info <= |b.img| - RECORD
    ensures var r := WithoutGap(b); |r.img| == |b.img| && r.off == b.off && r.info == b.info
  {
  }

  lemma {:induction false} StopArithmetic(a: seq<Frame>, c: seq<Frame>, lost: nat, f: Frame)
    requires lost <= |c|
    ensures a + c[..|c| - lost] + [] != a + [] + c + [f]
    ensures a + c + [] == a + [] + c
  {
    assert |a + c[..|c| - lost] + []| < |a + [] + c + [f]|;
  }

  /** A stop keeps every accepted frame exactly when its own frame did not fit and was
      dropped: an appended frame is always lost, and records before it with it. */
  lemma {:induction false} StopConserves(s: Sys, mem: bytes, size: nat, ms: nat)
    requires Conserved(s) && Enabled(s, BeginStop(mem, size, ms))
    ensures var s' := Step(s, BeginStop(mem, size, ms));
            && DevOk(s'.dev)
            && (Conserved(s') <==> Cur(s.dev).off + size + 96 > Cur(s.dev).info)
  {
    hide ReadBack, Frames, ReadAll, StopBegin, RecordsLost, NewFrame, BufOk, Pow256;
    StopFrames(s.dev, mem, size, ms);
    var a, c := ReadBack(s.files), Frames(Cur(s.dev));
    StopArithmetic(a, c, if Full(s.dev, size) then 0 else RecordsLost(size, |c|), NewFrame(s.dev, mem[..size], ms));
  }

  /** With the gap measured after the append, the hand-over would hold the frame as well. */
  lemma {:induction false} StopIntended(b: Buf, f: Frame)
    requires BufOk(b) && Fits(b, |f.data|) && Encodable(f) && |b.img| < Pow256(4)
    ensures var a := Append(b, f);
            && a.off <= a.info <= |a.img| - RECORD
            && ReadAll(WithoutGap(a).img) == Frames(b) + [f]
  {
    hide BufOk, Frames, ReadAll, WithoutGap, Append, Encodable, Pow256;
    AppendOk(b, f);
    AppendCursors(b, f);
    GapCleared(Append(b, f));
  }

  /** What a stop as it is meant leaves to be written: all frames, and its own if it fits. */
  lemma {:induction false} MeantStopFrames(d: Dev, mem: bytes, size: nat, ms: nat)
    requires DevOk(d) && StopSafe(d, mem, size, ms)
    ensures var d', fs := MeantStopBegin(d, mem, size, ms), Frames(Cur(d));
            && DevOk(d') && d'.stopping
            && PendFrames(d') ==
               if Cur(d).off + size + 96 > Cur(d).info then fs else fs + [Frame(ms, d.frameIndex, mem[..size])]
  {
    Pow256Facts();
    hide BufOk, Frames, ReadAll, Append, WithoutGap, Pow256;
    if Full(d, size) {
      GapCleared(Cur(d));
      GapCursors(Cur(d));
    } else {
      var f := NewFrame(d, mem[..size], ms);
      StopIntended(Cur(d), f);
      AppendCursors(Cur(d), f);
      GapCursors(Append(Cur(d), f));
    }
  }

  /** A stop as it is meant keeps every accepted frame. */
  lemma {:induction false} MeantStopConserves(s: Sys, mem: bytes, size: nat, ms: nat)
    requires Conserved(s) && Enabled(s, MeantStop(mem, size, ms))
    ensures Conserved(Step(s, MeantStop(mem, size, ms)))
  {
    hide ReadBack, Frames, ReadAll, MeantStopBegin, BufOk, Pow256;
    MeantStopFrames(s.dev, mem, size, ms);
    var a, c, f := ReadBack(s.files), Frames(Cur(s.dev)), NewFrame(s.dev, mem[..size], ms);
    assert a + [] + c == a + c;
    assert a + (c + [f]) + [] == a + c + [f];
    assert a + c + [] == a + c;
  }

  // ------------------------------------------------------------ runs

  predicate Feasible(s: Sys, es: seq<Event>)
    decreases |es|
  {
    es == [] || (Enabled(s, es[0]) && Feasible(Step(s, es[0]), es[1..]))
  }

  function Run(s: Sys, es: seq<Event>): Sys
    requires Feasible(s, es)
    decreases |es|
  {
    if es == [] then s else Run(Step(s, es[0]), es[1..])
  }

  lemma {:induction false} NoSteps(s: Sys)
    ensures Feasible(s, []) && Run(s, []) == s
  {
  }

  /** A rotation finds the pending buffer flushed or empty, a moving rotation finds the free
      slot unmarked, and a stop as coded has no room for its frame. */
  predicate CleanStep(s: Sys, e: Event)
    requires Enabled(s, e)
  {
    match e
    case Write(mem, size, ms, now) => PendClear(s.dev, size) && SlotClear(s.dev, mem, size)
    case BeginStop(mem, size, ms) => Cur(s.dev).off + size + 96 > Cur(s.dev).info
    case _ => true
  }

  predicate CleanRun(s: Sys, es: seq<Event>)
    requires Feasible(s, es)
    decreases |es|
  {
    es == [] || (CleanStep(s, es[0]) && CleanRun(Step(s, es[0]), es[1..]))
  }

  // ------------------------------------------------------------ every reachable state

  lemma {:induction false} FinishOk(d: Dev)
    requires DevOk(d) && d.stopping && d.pending == None
    ensures DevOk(StopEnd(d))
  {
    ResetOk(Cur(d), 0);
    hide Holds, Frames, Pow256;
  }

  lemma {:induction false} StepOk(s: Sys, e: Event)
    requires DevOk(s.dev) && Enabled(s, e)
    ensures DevOk(Step(s, e).dev)
  {
    hide DevOk, WriteFrame, StopBegin, MeantStopBegin, StopEnd, WriteSafe, StopSafe;
    match e
    case Write(mem, size, ms, now) => WriteFrames(s.dev, mem, size, ms, now);
    case FlushTurn => FlushOk(s.dev);
    case BeginStop(mem, size, ms) => StopFrames(s.dev, mem, size, ms);
    case MeantStop(mem, size, ms) => MeantStopFrames(s.dev, mem, size, ms);
    case FinishStop => FinishOk(s.dev);
  }

  lemma {:induction false} FlushOk(d: Dev)
    requires DevOk(d)
    ensures DevOk(Flush(d))
  {
    hide BufOk, Pow256;
  }

  /** In every reachable state, whatever is written and however buffers are reused, the device is in
      order: in particular the data cursor never passes the index cursor. */
  lemma {:induction false} RunOk(s: Sys, es: seq<Event>)
    requires DevOk(s.dev) && Feasible(s, es)
    ensures var d := Run(s, es).dev; DevOk(d) && Cur(d).off <= Cur(d).info <= |Cur(d).img| - RECORD
    decreases |es|
  {
    hide Step, Enabled, BufOk, Pow256;
    if es != [] {
      StepOk(s, es[0]);
      RunOk(Step(s, es[0]), es[1..]);
    }
  }

  lemma {:induction false} StartConserved(a: bytes, b: bytes, t: nat)
    requires |a| == |b| < Pow256(4) && RECORD <= |a|
    ensures Conserved(Sys(NewDevice(a, b, t), [], []))
  {
    ResetOk(Buf(a, 0, 0, 0), 0);
  }

  lemma {:induction false} StepConserves(s: Sys, e: Event)
    requires Conserved(s) && Enabled(s, e) && CleanStep(s, e)
    ensures Conserved(Step(s, e))
  {
    hide Conserved, Step, PendClear, SlotClear, Full;
    match e
    case Write(mem, size, ms, now) => WriteConserves(s, mem, size, ms, now);
    case FlushTurn => FlushConserves(s);
    case BeginStop(mem, size, ms) => StopConserves(s, mem, size, ms);
    case MeantStop(mem, size, ms) => MeantStopConserves(s, mem, size, ms);
    case FinishStop => FinishConserves(s);
  }

  /** Over every clean run, the frames read back from the flushed files, then from the
      pending buffer, then from the current buffer, are exactly the accepted frames. */
  lemma {:induction false} RunConserves(s: Sys, es: seq<Event>)
    requires Conserved(s) && Feasible(s, es) && CleanRun(s, es)
    ensures Conserved(Run(s, es))
    decreases |es|
  {
    hide Conserved, Step, CleanStep, Enabled;
    if es != [] {
      StepConserves(s, es[0]);
      RunConserves(Step(s, es[0]), es[1..]);
    }
  }
}
