/** What each call does with its frame, told from the cursors and the size of the frame. */
module StoreOutcome {
  import opened Bytes
  import opened AnnexB
  import opened StoreImage
  import opened StoreDevice
  import opened StoreSteps
  import opened StoreRuns

  /** There is room for a frame and its record of 96 bytes. */
  lemma {:induction false} FullMeans(d: Dev, size: nat)
    requires DevOk(d)
    ensures Full(d, size) <==> Cur(d).off + size + 96 > Cur(d).info
    ensures Fits(Cur(d), size) <==> Cur(d).off + size + 96 <= Cur(d).info
  {
    hide BufOk, Pow256;
  }

  /** A frame for which there is room can always be written. */
  lemma {:induction false} RoomEnables(s: Sys, mem: bytes, size: nat, ms: nat, now: nat)
    requires DevOk(s.dev) && !s.dev.stopping && size + 4 <= |mem| && ms < Pow256(8)
    requires Cur(s.dev).off + size + 96 <= Cur(s.dev).info
    ensures Enabled(s, Write(mem, size, ms, now))
  {
    hide BufOk, Pow256, KeyScan, GroupSafe;
  }

  /** It goes to the end of the current buffer, and nothing else changes. */
  lemma {:induction false} WriteStays(s: Sys, mem: bytes, size: nat, ms: nat, now: nat)
    requires DevOk(s.dev) && Enabled(s, Write(mem, size, ms, now))
    requires Cur(s.dev).off + size + 96 <= Cur(s.dev).info
    ensures var s', f := Step(s, Write(mem, size, ms, now)), Frame(ms, s.dev.frameIndex, mem[..size]);
            && s'.log == s.log + [f] && s'.files == s.files
            && var d, d' := s.dev, s'.dev;
            && DevOk(d') && Frames(Cur(d')) == Frames(Cur(d)) + [f]
            && d'.cur == d.cur && d'.pending == d.pending && !d'.stopping
            && At(d', Other(d.cur)) == At(d, Other(d.cur))
            && Cur(d').start == if Cur(d).start == 0 then now else Cur(d).start
  {
    hide DevOk, BufOk, Frames, ReadAll, KeyScan, GroupSafe, Pow256, Put, Record;
    FullMeans(s.dev, size);
    NoRotation(s.dev, mem, size, now);
    WriteFrames(s.dev, mem, size, ms, now);
  }

  /** The frame at position `i` passes the key-frame test where it is stored. */
  predicate KeyAt(img: bytes, fs: seq<Frame>, i: nat)
    requires i < |fs|
  {
    var a := Off(fs, i); a + |fs[i].data| + 4 <= |img| && KeyScan(img, a, a + |fs[i].data|)
  }

  /** The list is cut at its newest key frame. */
  ghost predicate CutAt(img: bytes, fs: seq<Frame>, k: nat) {
    k < |fs| && KeyAt(img, fs, k) && forall i :: k < i < |fs| ==> !KeyAt(img, fs, i)
  }

  lemma {:induction false} KeySlotIs(img: bytes, fs: seq<Frame>, i: nat)
    requires i < |fs| && SlotHolds(img, fs, i) && HasSlot(img, i)
    ensures KeySlot(img, i) == KeyAt(img, fs, i)
  {
    hide KeyScan, Off;
  }

  lemma {:induction false} SlotAt(img: bytes, fs: seq<Frame>, i: nat)
    requires Holds(img, fs) && i < |fs|
    ensures SlotHolds(img, fs, i)
  {
    hide SlotHolds;
  }

  lemma {:induction false} GroupCut(b: Buf)
    requires BufOk(b) && GroupSafe(b)
    ensures GroupStart(b) >= 0 && CutAt(b.img, Frames(b), GroupStart(b))
  {
    hide BufOk, Frames, Holds, SlotHolds, KeySlot, KeyAt, NewestKey, MoveSafe, LiveFrames, LiveFrom, Total, OffAt;
    BufOkRoom(b);
    var fs, k := Frames(b), GroupStart(b);
    GroupStartHeld(b);
    NewestKeyHeld(b.img, fs, |fs| - 1);
    assert Count(b) == |fs|;
    forall i | k <= i < |fs| ensures HasSlot(b.img, i) && KeySlot(b.img, i) == KeyAt(b.img, fs, i) {
      SlotAt(b.img, fs, i);
      SlotMarked(b.img, fs, i);
      KeySlotIs(b.img, fs, i);
    }
  }

  /** A frame for which there is no room causes a rotation. */
  lemma {:induction false} WriteRotates(s: Sys, mem: bytes, size: nat, ms: nat, now: nat)
    requires DevOk(s.dev) && Enabled(s, Write(mem, size, ms, now))
    requires Cur(s.dev).off + size + 96 > Cur(s.dev).info
    ensures var s', f := Step(s, Write(mem, size, ms, now)), Frame(ms, s.dev.frameIndex, mem[..size]);
            && s'.log == s.log + [f] && s'.files == s.files
            && var d, d' := s.dev, s'.dev;
            && DevOk(d') && d'.cur == Other(d.cur) && d'.pending == Some(d.cur) && !d'.stopping
            && At(d', d.cur).start == Cur(d).start && Cur(d').start == now
  {
    hide DevOk, BufOk, Frames, ReadAll, KeyScan, GroupSafe, GroupStart, MoveFrom, LiveFrames, LiveFrom, Total, Cleared, OffAt, Pow256, Put, Record;
    FullMeans(s.dev, size);
    WriteFrames(s.dev, mem, size, ms, now);
  }

  /** On a key frame all frames are handed over, and the new buffer begins with the key frame. */
  lemma {:induction false} KeyWriteRotates(s: Sys, mem: bytes, size: nat, ms: nat, now: nat)
    requires DevOk(s.dev) && Enabled(s, Write(mem, size, ms, now))
    requires Cur(s.dev).off + size + 96 > Cur(s.dev).info && KeyScan(mem, 0, size)
    ensures var d, d' := s.dev, Step(s, Write(mem, size, ms, now)).dev;
            && DevOk(d') && PendFrames(d') == Frames(Cur(d))
            && Frames(Cur(d')) == [Frame(ms, d.frameIndex, mem[..size])]
  {
    hide BufOk, Frames, ReadAll, KeyScan, GroupSafe, Pow256, Put, Record, Reset, WithoutGap;
    FullMeans(s.dev, size);
    WriteFrames(s.dev, mem, size, ms, now);
    RotateKeyFrames(s.dev, now);
  }

  /** On any other frame the list is cut at the newest key frame: the frames before it are handed over,
      the rest and the new frame are in the new buffer, and nothing else if and only if the free slot was
      unmarked. */
  lemma {:induction false} GroupWriteRotates(s: Sys, mem: bytes, size: nat, ms: nat, now: nat)
    requires DevOk(s.dev) && Enabled(s, Write(mem, size, ms, now))
    requires Cur(s.dev).off + size + 96 > Cur(s.dev).info && !KeyScan(mem, 0, size)
    ensures var d, d' := s.dev, Step(s, Write(mem, size, ms, now)).dev;
            && DevOk(d') && Cur(d').info + RECORD <= |Cur(d').img|
            && var fs, k, f := Frames(Cur(d)), |PendFrames(d')|, Frame(ms, d.frameIndex, mem[..size]);
            && CutAt(Cur(d).img, fs, k) && PendFrames(d') == fs[..k]
            && var moved := Frames(Cur(d'));
            && moved != [] && moved[|moved| - 1] == f
            && fs[k..] <= moved[..|moved| - 1] && (moved == fs[k..] + [f] <==> !Marked(Cur(d).img, |fs|))
  {
    hide BufOk, Frames, ReadAll, KeyScan, GroupSafe, GroupStart, Moved, WithoutGroup, Pow256, Put, Record, Reset, CutAt;
    var d := s.dev;
    FullMeans(d, size);
    WriteFrames(d, mem, size, ms, now);
    RotateGroupFrames(d, now);
    GroupCut(Cur(d));
    BufOkRoom(Cur(d));
    Rejoined(Frames(Cur(d)), |PendFrames(Step(s, Write(mem, size, ms, now)).dev)|, Frames(Cur(RotateGroup(d, now))),
             Frame(ms, d.frameIndex, mem[..size]));
  }

  lemma {:induction false} Rejoined(fs: seq<Frame>, k: nat, gs: seq<Frame>, f: Frame)
    requires k <= |fs| && fs[k..] <= gs
    ensures (gs + [f])[..|gs|] == gs && (gs + [f] == fs[k..] + [f] <==> gs == fs[k..])
  {
    assert (gs + [f])[..|gs|] == gs && (fs[k..] + [f])[..|fs[k..]|] == fs[k..];
    if gs + [f] == fs[k..] + [f] { assert |gs| == |fs[k..]|; }
  }

  /** A key frame can always be written unless it leaves no room in an empty buffer. */
  lemma {:induction false} KeyWriteEnables(s: Sys, mem: bytes, size: nat, ms: nat, now: nat)
    requires DevOk(s.dev) && !s.dev.stopping && size + 4 <= |mem| && ms < Pow256(8)
    requires Cur(s.dev).off + size + 96 > Cur(s.dev).info && KeyScan(mem, 0, size)
    ensures Enabled(s, Write(mem, size, ms, now)) <==> size + 2 * 96 <= |s.dev.ping.img|
  {
    hide BufOk, Pow256, KeyScan, GroupSafe, Cleared;
  }

  // ------------------------------------------------------------ stops

  /** A stop can begin in every state in which the file writer has nothing left to do, end once its file has
      been written, and the file writer can take its turn at any time. */
  lemma {:induction false} StopEnables(s: Sys, mem: bytes, size: nat, ms: nat)
    requires DevOk(s.dev) && size + 4 <= |mem| && ms < Pow256(8)
    ensures Enabled(s, BeginStop(mem, size, ms)) <==> s.dev.pending == None && !s.dev.stopping
    ensures Enabled(s, MeantStop(mem, size, ms)) <==> s.dev.pending == None && !s.dev.stopping
    ensures Enabled(s, FinishStop) <==> s.dev.pending == None && s.dev.stopping
    ensures Enabled(s, FlushTurn)
  {
    hide BufOk, Pow256;
  }

  /** A stop stores its frame if and only if there is room for it. */
  lemma {:induction false} StopStores(s: Sys, mem: bytes, size: nat, ms: nat)
    requires DevOk(s.dev) && Enabled(s, BeginStop(mem, size, ms))
    ensures var s', f := Step(s, BeginStop(mem, size, ms)), Frame(ms, s.dev.frameIndex, mem[..size]);
            && s'.log == s.log + (if Cur(s.dev).off + size + 96 <= Cur(s.dev).info then [f] else [])
            && s'.files == s.files && s'.dev.cur == s.dev.cur && s'.dev.pending == Some(s.dev.cur) && s'.dev.stopping
  {
    hide DevOk, AppendOverCleared, WithoutGap, Pow256;
    FullMeans(s.dev, size);
  }

  lemma {:induction false} MeantStopStores(s: Sys, mem: bytes, size: nat, ms: nat)
    requires DevOk(s.dev) && Enabled(s, MeantStop(mem, size, ms))
    ensures var s', f := Step(s, MeantStop(mem, size, ms)), Frame(ms, s.dev.frameIndex, mem[..size]);
            && var added := if Cur(s.dev).off + size + 96 <= Cur(s.dev).info then [f] else [];
            && s'.log == s.log + added && PendFrames(s'.dev) == Frames(Cur(s.dev)) + added
            && s'.files == s.files && s'.dev.cur == s.dev.cur && s'.dev.pending == Some(s.dev.cur) && s'.dev.stopping
  {
    MeantStopFrames(s.dev, mem, size, ms);
    hide DevOk, Append, WithoutGap, Pow256, Frames, PendFrames;
    FullMeans(s.dev, size);
  }

  /** After a stop the same buffer is in use again, empty and undated. */
  lemma {:induction false} FinishEmpties(s: Sys)
    requires DevOk(s.dev) && Enabled(s, FinishStop)
    ensures var s' := Step(s, FinishStop);
            && s'.log == s.log && s'.files == s.files && DevOk(s'.dev)
            && s'.dev.cur == s.dev.cur && s'.dev.pending == None && !s'.dev.stopping
            && Frames(Cur(s'.dev)) == [] && Cur(s'.dev).off == 0 && Cur(s'.dev).start == 0
  {
    hide Frames, BufOk, Pow256;
    FinishOk(s.dev);
    ResetOk(Cur(s.dev), 0);
  }

  /** A new device records into its first buffer, from its start, and numbers frames from zero. */
  lemma {:induction false} StartsEmpty(a: bytes, b: bytes, t: nat)
    requires |a| == |b| >= 96
    ensures var d := NewDevice(a, b, t);
            && d.cur == Ping && d.pending == None && d.frameIndex == 0 && !d.stopping
            && d.ping == Buf(a, 0, |a| - 96, 0) && d.pong == Buf(b, 0, |b| - 96, t)
  {
  }
}
