/** The file writer's turn in its own steps, with frames written between them. The file writer holds a
    mutex that WriteFrameToBuf does not take, and looks up the pending buffer anew for every block. */
module StoreFlush {
  import opened Bytes
  import opened AnnexB
  import opened StoreImage
  import opened StoreDevice
  import opened StoreSteps
  import opened StoreRuns
  import opened StoreKeyStart
  import opened StoreExact

  /** Idle, or with a file under way. */
  datatype Writer = Idle | Busy(file: bytes)

  datatype Fine = Fine(sys: Sys, writer: Writer)

  /** `Block(n)` is one write of n bytes. */
  datatype FineEvent = Produce(e: Event) | Begin | Block(n: nat) | End

  function PendImage(d: Dev): bytes
    requires d.pending.Some?
  {
    At(d, d.pending.value).img
  }

  predicate FineEnabled(f: Fine, e: FineEvent) {
    match e
    case Produce(p) => !p.FlushTurn? && Enabled(f.sys, p)
    case Begin => f.writer.Idle? && f.sys.dev.pending.Some?
    case Block(n) => f.writer.Busy? && f.sys.dev.pending.Some? && |f.writer.file| + n <= |PendImage(f.sys.dev)|
    case End => f.writer.Busy? && f.sys.dev.pending.Some? && |f.writer.file| == |PendImage(f.sys.dev)|
  }

  function FineStep(f: Fine, e: FineEvent): (f': Fine)
    requires FineEnabled(f, e)
  {
    var d := f.sys.dev;
    match e
    case Produce(p) => f.(sys := Step(f.sys, p))
    case Begin => if Marked(PendImage(d), 0) then f.(writer := Busy([])) else f.(sys := f.sys.(dev := Flush(d)))
    case Block(n) =>
      var k := |f.writer.file|;
      f.(writer := Busy(f.writer.file + PendImage(d)[k..k + n]))
    case End => Fine(f.sys.(dev := Flush(d), files := f.sys.files + [f.writer.file]), Idle)
  }

  /** A write that rotates while a file is under way. */
  predicate Rotates(f: Fine, e: FineEvent) {
    f.writer.Busy? && e.Produce? && e.e.Write? && Full(f.sys.dev, e.e.size)
  }

  /** A file under way: what is in it came from a pending buffer of the same size. */
  ghost predicate Underway(f: Fine) {
    && DevOk(f.sys.dev) && f.writer.Busy? && f.sys.dev.pending.Some?
    && |f.writer.file| <= |PendImage(f.sys.dev)|
  }

  /** A file under way holds what the pending buffer holds, and the buffer is worth a file. */
  ghost predicate FineOk(f: Fine) {
    && DevOk(f.sys.dev)
    && (f.writer.Busy? ==>
          && f.sys.dev.pending.Some? && Marked(PendImage(f.sys.dev), 0)
          && f.writer.file <= PendImage(f.sys.dev))
  }

  // ------------------------------------------------------------ one step

  /** Without a rotation the pending buffer stays as it is: writes go to the other one, and no stop can
      begin or end. */
  lemma {:induction false} PendingStays(s: Sys, p: Event)
    requires DevOk(s.dev) && s.dev.pending.Some? && Enabled(s, p) && !p.FlushTurn?
    requires p.Write? ==> !Full(s.dev, p.size)
    ensures var d' := Step(s, p).dev;
            d'.pending == s.dev.pending && PendImage(d') == PendImage(s.dev)
  {
    hide BufOk, Append, KeyScan, GroupSafe, Pow256;
    if p.Write? { NoRotation(s.dev, p.mem, p.size, p.now); }
  }

  /** A rotation exchanges it for the other one, of the same size. */
  lemma {:induction false} PendingAfter(s: Sys, p: Event)
    requires DevOk(s.dev) && p.Write? && Enabled(s, p) && Full(s.dev, p.size) && s.dev.pending.Some?
    ensures var d' := Step(s, p).dev;
            d'.pending == Some(s.dev.cur) && |PendImage(d')| == |PendImage(s.dev)|
  {
    hide BufOk, Append, KeyScan, GroupSafe, Pow256, MakeRoom;
    MakeRoomShape(s.dev, p.mem, p.size, p.now);
  }

  lemma {:induction false} FineDevOk(f: Fine, e: FineEvent)
    requires DevOk(f.sys.dev) && FineEnabled(f, e)
    ensures DevOk(FineStep(f, e).sys.dev)
  {
    hide DevOk, Step, Enabled, Marked;
    if e.Produce? { StepOk(f.sys, e.e); } else { FlushOk(f.sys.dev); }
  }

  /** Any step before the end: the file grows by the next bytes of the pending buffer, which only a
      rotation exchanges. */
  ghost predicate Grown(f: Fine, f': Fine, rotated: bool)
    requires f.writer.Busy? && f.sys.dev.pending.Some? && f'.writer.Busy? && f'.sys.dev.pending.Some?
  {
    var img, img', n, n' := PendImage(f.sys.dev), PendImage(f'.sys.dev), |f.writer.file|, |f'.writer.file|;
    && |img'| == |img| && n <= n' <= |img| && f'.writer.file == f.writer.file + img[n..n']
    && (if rotated then n' == n else img' == img)
  }

  lemma {:induction false} UnderwayStep(f: Fine, e: FineEvent)
    requires Underway(f) && FineEnabled(f, e) && !e.End?
    ensures Underway(FineStep(f, e)) && Grown(f, FineStep(f, e), Rotates(f, e))
  {
    FineDevOk(f, e);
    hide DevOk, Step, Enabled, Full;
    match e
    case Produce(p) => ProduceStep(f, p);
    case Block(n) =>
  }

  lemma {:induction false} ProduceStep(f: Fine, p: Event)
    requires Underway(f) && FineEnabled(f, Produce(p))
    ensures var f', e := FineStep(f, Produce(p)), Produce(p);
            f'.writer.Busy? && f'.sys.dev.pending.Some? && Grown(f, f', Rotates(f, e))
  {
    hide DevOk, Step, Enabled, Full;
    if Rotates(f, Produce(p)) { PendingAfter(f.sys, p); } else { PendingStays(f.sys, p); }
    assert f.writer.file + [] == f.writer.file;
  }

  /** What a step of the file writer is in terms of the atomic turn. */
  function Coarse(f: Fine, e: FineEvent): (es: seq<Event>)
    requires FineEnabled(f, e)
    ensures |es| <= 1
  {
    match e
    case Produce(p) => [p]
    case Begin => if Marked(PendImage(f.sys.dev), 0) then [] else [FlushTurn]
    case Block(_) => []
    case End => [FlushTurn]
  }

  function CoarseStep(s: Sys, es: seq<Event>): Sys
    requires |es| <= 1 && (es != [] ==> Enabled(s, es[0]))
  {
    if es == [] then s else Step(s, es[0])
  }

  lemma {:induction false} CoarseEnabled(f: Fine, e: FineEvent)
    requires FineEnabled(f, e)
    ensures var es := Coarse(f, e); es != [] ==> Enabled(f.sys, es[0])
  {
    hide WriteSafe, StopSafe, Marked;
  }

  /** The file is the pending buffer, and the buffer is worth a file. */
  predicate Whole(f: Fine)
    requires f.writer.Busy? && f.sys.dev.pending.Some?
  {
    Marked(PendImage(f.sys.dev), 0) && f.writer.file == PendImage(f.sys.dev)
  }

  /** A step of the file writer is the atomic turn or nothing if and only if it does not end a file that
      is not the buffer then pending. */
  lemma {:induction false} StepRefines(f: Fine, e: FineEvent)
    requires FineEnabled(f, e)
    ensures var es := Coarse(f, e);
            && (es != [] ==> Enabled(f.sys, es[0]))
            && (FineStep(f, e).sys == CoarseStep(f.sys, es) <==> (e.End? ==> Whole(f)))
  {
    CoarseEnabled(f, e);
    hide Marked, WriteFrame, StopBegin, MeantStopBegin, StopEnd, WriteSafe, StopSafe, Full;
    if e.End? { LastFile(f.sys.files, f.writer.file, PendImage(f.sys.dev)); }
  }

  lemma {:induction false} LastFile(files: seq<bytes>, a: bytes, b: bytes)
    ensures files + [a] != files
    ensures files + [a] == files + [b] <==> a == b
  {
    assert |files + [a]| == |files| + 1;
    assert (files + [a])[|files|] == a && (files + [b])[|files|] == b;
  }

  /** Without a rotation in between, a file under way keeps to the pending buffer. */
  lemma {:induction false} FineKept(f: Fine, e: FineEvent)
    requires FineOk(f) && FineEnabled(f, e) && !Rotates(f, e)
    ensures FineOk(FineStep(f, e)) && (e.End? ==> Whole(f))
  {
    hide DevOk, Marked, Enabled, Step, Full;
    FineDevOk(f, e);
    if f.writer.Busy? && !e.End? { UnderwayStep(f, e); }
  }

  // ------------------------------------------------------------ runs

  predicate FineFeasible(f: Fine, es: seq<FineEvent>)
    decreases |es|
  {
    es == [] || (FineEnabled(f, es[0]) && FineFeasible(FineStep(f, es[0]), es[1..]))
  }

  function FineRun(f: Fine, es: seq<FineEvent>): Fine
    requires FineFeasible(f, es)
    decreases |es|
  {
    if es == [] then f else FineRun(FineStep(f, es[0]), es[1..])
  }

  /** No rotation falls between the steps of the file writer. */
  predicate NoRotationBetween(f: Fine, es: seq<FineEvent>)
    requires FineFeasible(f, es)
    decreases |es|
  {
    es == [] || (!Rotates(f, es[0]) && NoRotationBetween(FineStep(f, es[0]), es[1..]))
  }

  /** Every file ended in the run is the buffer then pending. */
  predicate WholeFiles(f: Fine, es: seq<FineEvent>)
    requires FineFeasible(f, es)
    decreases |es|
  {
    es == [] || ((es[0].End? ==> Whole(f)) && WholeFiles(FineStep(f, es[0]), es[1..]))
  }

  function CoarseRun(f: Fine, es: seq<FineEvent>): seq<Event>
    requires FineFeasible(f, es)
    decreases |es|
  {
    if es == [] then [] else Coarse(f, es[0]) + CoarseRun(FineStep(f, es[0]), es[1..])
  }

  /** Every step is that of a run with atomic turns. */
  predicate Atomic(f: Fine, es: seq<FineEvent>)
    requires FineFeasible(f, es)
    decreases |es|
  {
    es == [] ||
    (&& (Coarse(f, es[0]) != [] ==> Enabled(f.sys, Coarse(f, es[0])[0]))
     && FineStep(f, es[0]).sys == CoarseStep(f.sys, Coarse(f, es[0]))
     && Atomic(FineStep(f, es[0]), es[1..]))
  }

  lemma {:induction false} RunAfter(s: Sys, a: seq<Event>, b: seq<Event>)
    requires |a| <= 1 && (a != [] ==> Enabled(s, a[0])) && Feasible(CoarseStep(s, a), b)
    ensures Feasible(s, a + b) && Run(s, a + b) == Run(CoarseStep(s, a), b)
  {
    hide Enabled, Step;
    if a == [] {
      assert a + b == b;
    } else {
      assert (a + b)[1..] == b && (a + b)[0] == a[0];
    }
  }

  /** The file writer's turn may be taken as one step throughout a run if and only if every file it ends
      is the buffer then pending; device, files and accepted frames are then those of a run with atomic
      turns. */
  lemma {:induction false} RunRefines(f: Fine, es: seq<FineEvent>)
    requires FineFeasible(f, es)
    ensures Atomic(f, es) <==> WholeFiles(f, es)
    ensures Atomic(f, es) ==> Feasible(f.sys, CoarseRun(f, es)) && FineRun(f, es).sys == Run(f.sys, CoarseRun(f, es))
    decreases |es|
  {
    hide FineEnabled, FineStep, Coarse, CoarseStep, Enabled, Whole, Feasible, Run;
    if es == [] {
      NoSteps(f.sys);
    } else {
      StepRefines(f, es[0]);
      RunRefines(FineStep(f, es[0]), es[1..]);
      if Atomic(f, es) { RunAfter(f.sys, Coarse(f, es[0]), CoarseRun(FineStep(f, es[0]), es[1..])); }
    }
  }

  /** That is so whenever no rotation falls between the steps of the file writer. */
  lemma {:induction false} UndisturbedWhole(f: Fine, es: seq<FineEvent>)
    requires FineOk(f) && FineFeasible(f, es) && NoRotationBetween(f, es)
    ensures WholeFiles(f, es) && FineOk(FineRun(f, es))
    decreases |es|
  {
    hide FineOk, FineEnabled, FineStep, Rotates, Whole;
    if es != [] {
      FineKept(f, es[0]);
      UndisturbedWhole(FineStep(f, es[0]), es[1..]);
    }
  }

  // ------------------------------------------------------------ conservation

  /** Every state of the run holds exactly the frames accepted so far. */
  ghost predicate FineConserved(f: Fine, es: seq<FineEvent>)
    requires FineFeasible(f, es)
    decreases |es|
  {
    Conserved(f.sys) && (es == [] || FineConserved(FineStep(f, es[0]), es[1..]))
  }

  /** Every step but those of the file writer is clean. */
  predicate FineClean(f: Fine, es: seq<FineEvent>)
    requires FineFeasible(f, es)
    decreases |es|
  {
    es == [] || ((es[0].Produce? ==> CleanStep(f.sys, es[0].e)) && FineClean(FineStep(f, es[0]), es[1..]))
  }

  /** A rotation under the file writer is never clean: what is being written can be read. */
  lemma {:induction false} CleanUndisturbed(f: Fine, e: FineEvent)
    requires FineOk(f) && FineEnabled(f, e) && e.Produce? && CleanStep(f.sys, e.e)
    ensures !Rotates(f, e)
  {
    hide DevOk, Enabled, Full, Marked, FrameAt, SlotClear;
    if f.writer.Busy? { PendingReads(f.sys.dev); }
  }

  lemma {:induction false} PendingReads(d: Dev)
    requires d.pending.Some? && Marked(PendImage(d), 0)
    ensures PendFrames(d) != []
  {
    hide Marked, FrameAt;
    assert LiveFrom(PendImage(d), 0) > 0;
  }

  /** The steps of the file writer and the clean ones keep every frame. */
  lemma {:induction false} FineStepConserves(f: Fine, e: FineEvent)
    requires FineOk(f) && Conserved(f.sys) && FineEnabled(f, e) && (e.Produce? ==> CleanStep(f.sys, e.e))
    ensures Conserved(FineStep(f, e).sys) && FineOk(FineStep(f, e)) && !Rotates(f, e)
  {
    hide FineOk, Conserved, CleanStep, Step, Enabled, Marked, Rotates, Whole;
    if e.Produce? {
      StepConserves(f.sys, e.e);
      CleanUndisturbed(f, e);
    } else {
      OnlyWritesRotate(f, e);
      StepRefines(f, e);
      FlushConserves(f.sys);
    }
    FineKept(f, e);
  }

  lemma {:induction false} FineStepNumbered(f: Fine, e: FineEvent)
    requires Numbered(f.sys) && FineEnabled(f, e)
    ensures Numbered(FineStep(f, e).sys)
  {
    hide Step, Enabled, Marked;
    if e.Produce? { StepNumbered(f.sys, e.e); }
  }

  lemma {:induction false} OnlyWritesRotate(f: Fine, e: FineEvent)
    requires !e.Produce?
    ensures !Rotates(f, e)
  {
  }

  /** With the file writer taken in its own steps, a run whose other steps are clean keeps every frame.
      No rotation falls between the steps of the file writer. */
  lemma {:induction false} FineConserves(f: Fine, es: seq<FineEvent>)
    requires FineOk(f) && Conserved(f.sys) && FineFeasible(f, es) && FineClean(f, es)
    ensures FineConserved(f, es) && NoRotationBetween(f, es)
    decreases |es|
  {
    hide FineOk, Conserved, CleanStep, FineStep, FineEnabled, Rotates;
    if es != [] {
      FineStepConserves(f, es[0]);
      FineConserves(FineStep(f, es[0]), es[1..]);
    }
  }

  /** Over every run, frames read back are exactly the accepted frames throughout if and only if every
      step but the file writer's is clean. */
  lemma {:induction false} FineExact(f: Fine, es: seq<FineEvent>)
    requires FineOk(f) && Conserved(f.sys) && Numbered(f.sys) && FineFeasible(f, es)
    ensures FineConserved(f, es) <==> FineClean(f, es)
    decreases |es|
  {
    hide FineOk, Conserved, Numbered, CleanStep, FineStep, Enabled, Rotates;
    if es != [] {
      var f' := FineStep(f, es[0]);
      if es[0].Produce? && !CleanStep(f.sys, es[0].e) {
        DirtyStep(f, es[0]);
        NotConserved(f', es[1..]);
      } else {
        FineStepConserves(f, es[0]);
        FineStepNumbered(f, es[0]);
        FineExact(f', es[1..]);
      }
    }
  }

  lemma {:induction false} DirtyStep(f: Fine, e: FineEvent)
    requires Conserved(f.sys) && Numbered(f.sys) && FineEnabled(f, e) && e.Produce? && !CleanStep(f.sys, e.e)
    ensures !Conserved(FineStep(f, e).sys)
  {
    hide Conserved, Numbered, CleanStep, Step, Enabled;
    StepExact(f.sys, e.e);
  }

  lemma {:induction false} NotConserved(f: Fine, es: seq<FineEvent>)
    requires FineFeasible(f, es) && !Conserved(f.sys)
    ensures !FineConserved(f, es)
  {
    hide Conserved, FineStep, FineEnabled;
  }

  // ------------------------------------------------------------ rotations in between

  /** A rotation under the file writer: the buffer written from until then, and how far. */
  datatype Cut = Cut(img: bytes, at: nat)

  function Cuts(f: Fine, es: seq<FineEvent>): seq<Cut>
    requires FineFeasible(f, es)
    decreases |es|
  {
    if es == [] then [] else
      var rest := Cuts(FineStep(f, es[0]), es[1..]);
      if Rotates(f, es[0]) && f.sys.dev.pending.Some? then [Cut(PendImage(f.sys.dev), |f.writer.file|)] + rest else rest
  }

  /** The buffer that byte `j` of the file was taken from; `last` is the one pending at the end. */
  function Source(cuts: seq<Cut>, last: bytes, j: nat): bytes {
    if cuts == [] then last else if j < cuts[0].at then cuts[0].img else Source(cuts[1..], last, j)
  }

  predicate NoEnd(es: seq<FineEvent>) { forall i :: 0 <= i < |es| ==> !es[i].End? }

  /** What is already in the file was taken from the pending buffer or an earlier one. */
  lemma {:induction false} SourceWritten(f: Fine, es: seq<FineEvent>, j: nat)
    requires Underway(f) && FineFeasible(f, es) && NoEnd(es) && j < |f.writer.file|
    ensures Underway(FineRun(f, es))
    ensures Source(Cuts(f, es), PendImage(FineRun(f, es).sys.dev), j) == PendImage(f.sys.dev)
    decreases |es|
  {
    hide Underway, FineEnabled, FineStep, Rotates;
    UnderwayPending(f);
    if es != [] {
      UnderwayStep(f, es[0]);
      UnderwayPending(FineStep(f, es[0]));
      SourceWritten(FineStep(f, es[0]), es[1..], j);
    }
  }

  lemma {:induction false} UnderwayPending(f: Fine)
    requires Underway(f)
    ensures f.writer.Busy? && f.sys.dev.pending.Some? && |f.writer.file| <= |PendImage(f.sys.dev)|
  {
  }

  lemma {:induction false} SourceBehind(c: Cut, cuts: seq<Cut>, last: bytes, j: nat)
    requires c.at <= j
    ensures Source([c] + cuts, last, j) == Source(cuts, last, j)
  {
    assert ([c] + cuts)[1..] == cuts;
  }

  /** Byte `j` of the file is byte `j` of the buffer it was taken from. */
  ghost predicate FromSource(cuts: seq<Cut>, last: bytes, file: bytes, j: nat)
    requires j < |file|
  {
    var src := Source(cuts, last, j); j < |src| && file[j] == src[j]
  }

  /** Every further byte of the file is that byte of the buffer pending when it was written. */
  lemma {:induction false} FileBytes(f: Fine, es: seq<FineEvent>)
    requires Underway(f) && FineFeasible(f, es) && NoEnd(es)
    ensures var r := FineRun(f, es);
            && Underway(r) && |PendImage(r.sys.dev)| == |PendImage(f.sys.dev)| && f.writer.file <= r.writer.file
            && forall j :: |f.writer.file| <= j < |r.writer.file| ==>
                 FromSource(Cuts(f, es), PendImage(r.sys.dev), r.writer.file, j)
    decreases |es|
  {
    hide Underway, FineEnabled, FineStep, Rotates, Source;
    UnderwayPending(f);
    if es != [] {
      var f', r := FineStep(f, es[0]), FineRun(f, es);
      UnderwayStep(f, es[0]);
      UnderwayPending(f');
      FileBytes(f', es[1..]);
      UnderwayPending(r);
      var last, n, rest := PendImage(r.sys.dev), |f.writer.file|, Cuts(f', es[1..]);
      assert Cuts(f, es) == if Rotates(f, es[0]) then [Cut(PendImage(f.sys.dev), n)] + rest else rest;
      forall j | n <= j < |r.writer.file| ensures FromSource(Cuts(f, es), last, r.writer.file, j) {
        if j < |f'.writer.file| {
          SourceWritten(f', es[1..], j);
          assert FromSource(rest, last, r.writer.file, j);
        } else {
          assert FromSource(rest, last, r.writer.file, j);
          if Rotates(f, es[0]) {
            SourceBehind(Cut(PendImage(f.sys.dev), n), rest, last, j);
          }
        }
      }
    }
  }

  /** Every byte of the file is that byte of the buffer it was taken from. */
  ghost predicate Assembled(cuts: seq<Cut>, last: bytes, file: bytes) {
    forall j :: 0 <= j < |file| ==> FromSource(cuts, last, file, j)
  }

  /** With any number of rotations while a file is written, every byte of the file is that byte of the
      buffer pending when it was written. The file is the buffer handed over if and only if that holds of
      the buffer handed over as well: all of them agree with it where the file was taken from them. */
  lemma {:induction false} TornFile(f: Fine, es: seq<FineEvent>)
    requires FineOk(f) && f.writer.Busy? && FineFeasible(f, es) && NoEnd(es) && FineEnabled(FineRun(f, es), End)
    ensures var r, given := FineRun(f, es), PendImage(f.sys.dev);
            var cuts, last := Cuts(f, es), PendImage(r.sys.dev);
            && |r.writer.file| == |given| && Assembled(cuts, last, r.writer.file)
            && (r.writer.file == given <==> Assembled(cuts, last, given))
  {
    hide DevOk, FineFeasible, FineRun, Cuts, Source, Marked, FromSource;
    var r, given := FineRun(f, es), PendImage(f.sys.dev);
    FileBytes(f, es);
    forall j | 0 <= j < |given| ensures FromSource(Cuts(f, es), PendImage(r.sys.dev), r.writer.file, j) {
      if j < |f.writer.file| { HeldFromSource(f, es, j); }
    }
    SameSources(Cuts(f, es), PendImage(r.sys.dev), r.writer.file, given);
  }

  lemma {:induction false} HeldFromSource(f: Fine, es: seq<FineEvent>, j: nat)
    requires FineOk(f) && f.writer.Busy? && FineFeasible(f, es) && NoEnd(es) && j < |f.writer.file|
    ensures var r := FineRun(f, es);
            && Underway(r) && j < |r.writer.file|
            && FromSource(Cuts(f, es), PendImage(r.sys.dev), r.writer.file, j)
  {
    hide DevOk, FineFeasible, FineRun, Cuts, Source, Marked;
    FileBytes(f, es);
    SourceWritten(f, es, j);
  }

  lemma {:induction false} SameSources(cuts: seq<Cut>, last: bytes, file: bytes, given: bytes)
    requires |file| == |given| && Assembled(cuts, last, file)
    ensures file == given <==> Assembled(cuts, last, given)
  {
    hide Source;
    if Assembled(cuts, last, given) {
      forall j | 0 <= j < |file| ensures file[j] == given[j] {
        assert FromSource(cuts, last, file, j) && FromSource(cuts, last, given, j);
      }
    }
  }
}
