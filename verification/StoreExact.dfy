/** Conservation exactly: which steps lose or repeat a frame, and which runs never do. */
module StoreExact {
  import opened Bytes
  import opened AnnexB
  import opened StoreImage
  import opened StoreDevice
  import opened StoreSteps
  import opened StoreRuns
  import opened StoreKeyStart

  /** A buffer has room for fewer records than there are frame numbers. */
  lemma {:induction false} FewPending(d: Dev)
    requires DevOk(d)
    ensures |PendFrames(d)| < 0x1_0000_0000
  {
    Pow256Facts();
    hide Pow256, Frames, Holds;
  }

  /** A frame of the current buffer is not one of the frames pending before it. */
  lemma {:induction false} NumbersDiffer(s: Sys)
    requires Conserved(s) && Numbered(s) && !s.dev.stopping
    requires PendFrames(s.dev) != [] && Frames(Cur(s.dev)) != []
    ensures PendFrames(s.dev)[0] != Frames(Cur(s.dev))[0]
  {
    hide DevOk, Frames, PendFrames, ReadBack;
    FewPending(s.dev);
    DevOkCursor(s.dev);
    NumbersApart(s.log, ReadBack(s.files), PendFrames(s.dev), Frames(Cur(s.dev)));
  }

  lemma {:induction false} NumbersApart(log: seq<Frame>, a: seq<Frame>, p: seq<Frame>, c: seq<Frame>)
    requires log == a + p + c && 0 < |p| < 0x1_0000_0000 && c != []
    requires forall i :: 0 <= i < |log| ==> log[i].idx == i % 0x1_0000_0000
    ensures p[0] != c[0]
  {
    assert log[|a|] == p[0] && log[|a| + |p|] == c[0];
    NotCongruent(|a|, |p|);
  }

  lemma {:induction false} NotCongruent(x: nat, n: nat)
    requires 0 < n < 0x1_0000_0000
    ensures x % 0x1_0000_0000 != (x + n) % 0x1_0000_0000
  {
  }

  /** The current buffer is not empty when a group is moved out of it. */
  lemma {:induction false} GroupNotEmpty(d: Dev, mem: bytes, size: nat, now: nat)
    requires DevOk(d) && !d.stopping && size + 4 <= |mem| && RotationSafe(d, mem, size)
    requires Full(d, size) && !KeyScan(mem, 0, size)
    ensures Frames(Cur(d)) != []
  {
    hide KeyScan, GroupSafe, Frames, BufOk, ReadAll, Moved, WithoutGroup, Marked, GroupStart, Reset, Pow256, RotateGroup;
    RotateGroupFrames(d, now);
  }

  lemma {:induction false} FirstFrame(p: seq<Frame>, c: seq<Frame>, r: seq<Frame>)
    requires p != [] && c != [] && c <= r && r == p + c
    ensures p[0] == c[0]
  {
  }

  lemma {:induction false} Cancel(a: seq<Frame>, r: seq<Frame>, q: seq<Frame>, f: Frame)
    requires a + r + [f] == a + q + [f]
    ensures r == q
  {
    assert (a + r + [f])[|a|..|a + r + [f]| - 1] == r;
    assert (a + q + [f])[|a|..|a + q + [f]| - 1] == q;
  }

  /** Copying stale frames never makes up for overwriting pending ones. */
  lemma {:induction false} BothFail(s: Sys, mem: bytes, size: nat, ms: nat, now: nat)
    requires Conserved(s) && Numbered(s) && Enabled(s, Write(mem, size, ms, now))
    requires !PendClear(s.dev, size) && !SlotClear(s.dev, mem, size)
    ensures !Conserved(Step(s, Write(mem, size, ms, now)))
  {
    hide DevOk, Frames, PendFrames, MakeRoom, WriteFrame, ReadBack, NewFrame, WriteSafe, ReadAll, RotationSafe, KeyScan, Marked;
    var d := s.dev;
    WriteSafeParts(d, mem, size, ms, now);
    DevOkCursor(d);
    var m, f := MakeRoom(d, mem, size, now), NewFrame(d, mem[..size], ms);
    var d' := WriteFrame(d, mem, size, ms, now);
    WriteFrames(d, mem, size, ms, now);
    DevOkCursor(d');
    DevOkCursor(m);
    GroupNotEmpty(d, mem, size, now);
    MakeRoomFrames(d, mem, size, now);
    NumbersDiffer(s);
    var a, p, c, r := ReadBack(s.files), PendFrames(d), Frames(Cur(d)), PendFrames(m) + Frames(Cur(m));
    if Conserved(Step(s, Write(mem, size, ms, now))) {
      assert a + PendFrames(m) + (Frames(Cur(m)) + [f]) == a + r + [f];
      assert a + p + c == a + (p + c);
      Cancel(a, r, p + c, f);
      FirstFrame(p, c, r);
    }
  }

  /** One write keeps every frame, in order and once, if and only if the rotation it may cause finds
      nothing readable pending and, when it moves a group, the free slot unmarked. */
  lemma {:induction false} WriteExact(s: Sys, mem: bytes, size: nat, ms: nat, now: nat)
    requires Conserved(s) && Numbered(s) && Enabled(s, Write(mem, size, ms, now))
    ensures Conserved(Step(s, Write(mem, size, ms, now))) <==> PendClear(s.dev, size) && SlotClear(s.dev, mem, size)
  {
    hide Conserved, Numbered, Step, PendClear, SlotClear;
    WriteConserves(s, mem, size, ms, now);
    if !PendClear(s.dev, size) && !SlotClear(s.dev, mem, size) {
      BothFail(s, mem, size, ms, now);
    }
  }

  /** A step keeps every accepted frame if and only if it is clean. */
  lemma {:induction false} StepExact(s: Sys, e: Event)
    requires Conserved(s) && Numbered(s) && Enabled(s, e)
    ensures Conserved(Step(s, e)) <==> CleanStep(s, e)
  {
    hide Conserved, Numbered, Step, PendClear, SlotClear, Full;
    match e
    case Write(mem, size, ms, now) => WriteExact(s, mem, size, ms, now);
    case FlushTurn => FlushConserves(s);
    case BeginStop(mem, size, ms) => StopConserves(s, mem, size, ms);
    case MeantStop(mem, size, ms) => MeantStopConserves(s, mem, size, ms);
    case FinishStop => FinishConserves(s);
  }

  /** Every state of the run holds exactly the frames accepted so far. */
  ghost predicate AlwaysConserved(s: Sys, es: seq<Event>)
    requires Feasible(s, es)
    decreases |es|
  {
    Conserved(s) && (es == [] || AlwaysConserved(Step(s, es[0]), es[1..]))
  }

  /** Over every run, frames read back are exactly the accepted frames throughout if and only if every
      step of the run is clean. */
  lemma {:induction false} RunExact(s: Sys, es: seq<Event>)
    requires Conserved(s) && Numbered(s) && Feasible(s, es)
    ensures AlwaysConserved(s, es) <==> CleanRun(s, es)
    decreases |es|
  {
    hide Conserved, Numbered, Step, CleanStep, Enabled;
    if es != [] {
      var s' := Step(s, es[0]);
      StepExact(s, es[0]);
      StepNumbered(s, es[0]);
      if CleanStep(s, es[0]) {
        RunExact(s', es[1..]);
      } else {
        NotAlways(s', es[1..]);
      }
    }
  }

  lemma {:induction false} NotAlways(s: Sys, es: seq<Event>)
    requires Feasible(s, es) && !Conserved(s)
    ensures !AlwaysConserved(s, es)
  {
    hide Conserved, Step, Enabled;
  }

  /** The same for every run of a new device. */
  lemma {:induction false} DeviceExact(a: bytes, b: bytes, t: nat, es: seq<Event>)
    requires |a| == |b| < Pow256(4) && RECORD <= |a|
    requires Feasible(Sys(NewDevice(a, b, t), [], []), es)
    ensures var s := Sys(NewDevice(a, b, t), [], []); AlwaysConserved(s, es) <==> CleanRun(s, es)
  {
    hide Conserved, Feasible, CleanRun, AlwaysConserved, Pow256;
    StartConserved(a, b, t);
    RunExact(Sys(NewDevice(a, b, t), [], []), es);
  }
}
