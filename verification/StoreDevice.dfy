/** One recording device on values: two buffers, the cursors of each, and the hand-over
    to the file writer. The clock is a parameter of every write. */
module StoreDevice {
  import opened Bytes
  import opened AnnexB
  import opened StoreImage

  datatype Buf = Buf(img: bytes, off: nat, info: nat, start: nat)

  // ------------------------------------------------------------ one buffer

  /** Number of records above the index cursor. */
  function Count(b: Buf): nat
    requires b.info + RECORD <= |b.img|
  {
    (|b.img| - RECORD - b.info) / RECORD
  }

  /** The frames above the index cursor. */
  function Frames(b: Buf): seq<Frame>
    requires b.info + RECORD <= |b.img|
  {
    FirstFrames(b.img, Count(b))
  }

  /** The cursors are where the frames of the buffer put them. */
  ghost predicate BufOk(b: Buf) {
    && b.info + RECORD <= |b.img|
    && b.info == SlotAddr(|b.img|, Count(b))
    && b.off <= b.info
    && Holds(b.img, Frames(b))
    && b.off == Total(Frames(b))
  }

  lemma {:induction false} BufOkIntro(b: Buf, fs: seq<Frame>)
    requires Holds(b.img, fs) && b.off == Total(fs)
    requires b.info == SlotAddr(|b.img|, |fs|) && b.off <= b.info
    ensures BufOk(b) && Frames(b) == fs
  {
    assert Count(b) == |fs|;
    HoldsFirstFrames(b.img, fs, |fs|);
    assert fs[..|fs|] == fs;
  }

  /** A buffer as it is set up and as it is taken into use again: only the cursors
      move, the bytes of its former life stay. */
  function Reset(b: Buf, start: nat): (r: Buf)
    requires |b.img| >= RECORD
  {
    Buf(b.img, 0, |b.img| - RECORD, start)
  }

  lemma {:induction false} ResetOk(b: Buf, start: nat)
    requires |b.img| >= RECORD
    ensures BufOk(Reset(b, start)) && Frames(Reset(b, start)) == []
  {
    BufOkIntro(Reset(b, start), []);
  }

  predicate Fits(b: Buf, size: nat) { b.off + size + RECORD <= b.info <= |b.img| - RECORD }

  /** The frame's bytes at the data cursor, its record at the index cursor. */
  function Append(b: Buf, f: Frame): (r: Buf)
    requires Fits(b, |f.data|)
  {
    var img1 := Put(b.img, b.off, f.data);
    var img2 := Put(img1, b.info, Record(f.time, f.idx, b.off, |f.data|));
    Buf(img2, b.off + |f.data|, b.info - RECORD, b.start)
  }

  /** Data and record written into the gap extend the held list. */
  lemma {:induction false} PlacedFrame(img: bytes, fs: seq<Frame>, f: Frame)
    requires Holds(img, fs) && Encodable(f) && |img| < Pow256(4)
    requires Total(fs) + |f.data| <= SlotAddr(|img|, |fs|)
    ensures var img1 := Put(img, Total(fs), f.data);
            Holds(Put(img1, SlotAddr(|img|, |fs|), Record(f.time, f.idx, Total(fs), |f.data|)), fs + [f])
  {
    var lo, a := Total(fs), SlotAddr(|img|, |fs|);
    var img1 := Put(img, lo, f.data);
    var rec := Record(f.time, f.idx, lo, |f.data|);
    var img2 := Put(img1, a, rec);
    assert AgreeOutside(img, img1, lo, lo + |f.data|) && HasAt(img1, lo, f.data) by { PutAgrees(img, lo, f.data); }
    assert AgreeOutside(img1, img2, a, a + RECORD) && HasAt(img2, a, rec) by { PutAgrees(img1, a, rec); }
    HoldsFrame(img, img1, fs, lo, lo + |f.data|);
    HoldsFrame(img1, img2, fs, a, a + RECORD);
    HasAtAgree(img1, img2, a, a + RECORD, lo, f.data);
    RecordFields(img2, |fs|, f, lo);
    HoldsExtend(img2, fs, f);
  }

  lemma {:induction false} AppendOk(b: Buf, f: Frame)
    requires BufOk(b) && Fits(b, |f.data|) && Encodable(f) && |b.img| < Pow256(4)
    ensures BufOk(Append(b, f)) && Frames(Append(b, f)) == Frames(b) + [f]
  {
    PlacedFrame(b.img, Frames(b), f);
    TotalSnoc(Frames(b), f);
    BufOkIntro(Append(b, f), Frames(b) + [f]);
  }

  // ------------------------------------------------------------ moving the last group

  /** The newest key frame at or above slot `j`: the walk goes up the records while they
      are marked and stops at the first one whose frame passes the key-frame test. */
  function NewestKey(img: bytes, j: int): (k: int)
    requires j < 0 || HasSlot(img, j)
    ensures -1 <= k <= j || k == -1
    decreases j
  {
    if j < 0 || !Marked(img, j) then -1
    else if KeySlot(img, j) then j
    else NewestKey(img, j - 1)
  }

  predicate KeySlot(img: bytes, j: nat)
    requires HasSlot(img, j)
  {
    && OffAt(img, j) + SizeAt(img, j) + 4 <= |img|
    && KeyScan(img, OffAt(img, j), OffAt(img, j) + SizeAt(img, j))
  }

  predicate CopySafe(s: bytes, j: nat, dOff: nat, dj: nat) {
    && HasSlot(s, j)
    && OffAt(s, j) + SizeAt(s, j) <= |s|
    && dOff + SizeAt(s, j) <= SlotAddr(|s|, dj + 1)
  }

  function RecordAt(s: bytes, j: nat): (r: bytes)
    requires HasSlot(s, j)
    ensures |r| == RECORD
  {
    s[SlotAddr(|s|, j)..SlotAddr(|s|, j) + RECORD]
  }

  /** Data and record, with the record's offset rebased. */
  function PlaceCopy(d: bytes, data: bytes, rec: bytes, dOff: nat, dj: nat): (r: bytes)
    requires |rec| == RECORD && dOff + |data| <= SlotAddr(|d|, dj + 1)
    ensures |r| == |d|
  {
    var a := SlotAddr(|d|, dj);
    Put(Put(Put(d, dOff, data), a, rec), a + OFFSET_FIELD, Le(dOff, 4))
  }

  /** The same, with the next offset parked in the slot below. */
  function CopyFrame(d: bytes, data: bytes, rec: bytes, dOff: nat, dj: nat): (r: bytes)
    requires |rec| == RECORD && dOff + |data| <= SlotAddr(|d|, dj + 1)
    ensures |r| == |d|
  {
    Put(PlaceCopy(d, data, rec, dOff, dj), SlotAddr(|d|, dj + 1) + OFFSET_FIELD, Le(dOff + |data|, 4))
  }

  /** One turn of the copy loop. */
  function CopySlot(s: bytes, d: bytes, j: nat, dOff: nat, dj: nat): (r: bytes)
    requires |s| == |d| && CopySafe(s, j, dOff, dj)
    ensures |r| == |d|
  {
    CopyFrame(d, FrameAt(s, j).data, RecordAt(s, j), dOff, dj)
  }

  lemma {:induction false} CopySlotFrame(s: bytes, j: nat, dOff: nat, dj: nat)
    requires CopySafe(s, j, dOff, dj)
    ensures |FrameAt(s, j).data| == SizeAt(s, j)
    ensures FrameAt(s, j).data == s[OffAt(s, j)..OffAt(s, j) + SizeAt(s, j)]
  {
  }

  /** Every copy of the loop stays inside both buffers. */
  predicate MoveSafe(s: bytes, j: nat, dOff: nat, dj: nat)
    decreases |s| - j * RECORD
  {
    Marked(s, j) ==> CopySafe(s, j, dOff, dj) && MoveSafe(s, j + 1, dOff + SizeAt(s, j), dj + 1)
  }

  /** The copy loop: from slot `j` down to the first unmarked slot. */
  function MoveFrom(s: bytes, d: bytes, j: nat, dOff: nat, dj: nat): (r: bytes)
    requires |s| == |d| && MoveSafe(s, j, dOff, dj)
    ensures |r| == |d|
    decreases |s| - j * RECORD
  {
    if !Marked(s, j) then d
    else MoveFrom(s, CopySlot(s, d, j, dOff, dj), j + 1, dOff + SizeAt(s, j), dj + 1)
  }

  /** The frames that the copy loop meets. */
  function LiveFrames(s: bytes, j: nat): (fs: seq<Frame>)
    ensures |fs| == LiveFrom(s, j)
    decreases |s| - j * RECORD
  {
    if Marked(s, j) then [FrameAt(s, j)] + LiveFrames(s, j + 1) else []
  }

  function Moved(src: Buf, k: nat, dst: Buf): (r: Buf)
    requires |src.img| == |dst.img| >= RECORD && MoveSafe(src.img, k, 0, 0)
    requires (LiveFrom(src.img, k) + 1) * RECORD <= |src.img|
  {
    var d := Put(dst.img, SlotAddr(|dst.img|, 0) + OFFSET_FIELD, Le(0, 4));
    Buf(MoveFrom(src.img, d, k, 0, 0), Total(LiveFrames(src.img, k)),
        SlotAddr(|dst.img|, LiveFrom(src.img, k)), dst.start)
  }

  lemma {:induction false} PatchedRecord(img: bytes, img': bytes, a: nat, rec: bytes, off: nat)
    requires HasAt(img, a, rec) && |rec| == RECORD && off < Pow256(4)
    requires img' == Put(img, a + OFFSET_FIELD, Le(off, 4))
    ensures FieldAt(img', a, 4) == FromLe(rec[..4])
    ensures FieldAt(img', a + 8, 8) == FromLe(rec[8..16])
    ensures FieldAt(img', a + 16, 4) == FromLe(rec[16..20])
    ensures FieldAt(img', a + 20, 4) == off
    ensures FieldAt(img', a + 24, 4) == FromLe(rec[24..28])
  {
    hide FieldAt, Put, HasAt, Le, FromLe, AgreeOutside, Pow256;
    HasAtInside(img, a, rec);
    PutAgrees(img, a + OFFSET_FIELD, Le(off, 4));
    FieldOf(img', a + 20, off, 4);
    FieldAgree(img, img', a + 20, a + 24, a, 4);
    FieldAgree(img, img', a + 20, a + 24, a + 8, 8);
    FieldAgree(img, img', a + 20, a + 24, a + 16, 4);
    FieldAgree(img, img', a + 20, a + 24, a + 24, 4);
    SubField(img, a, rec, 0, 4);
    SubField(img, a, rec, 8, 8);
    SubField(img, a, rec, 16, 4);
    SubField(img, a, rec, 24, 4);
  }

  lemma {:induction false} SubField(img: bytes, a: nat, rec: bytes, o: nat, w: nat)
    requires HasAt(img, a, rec) && o + w <= |rec|
    ensures FieldAt(img, a + o, w) == FromLe(rec[o..o + w])
  {
    SliceSlice(img, a, a + |rec|, o, w);
  }

  /** A copied record describes the same frame at the new offset. */
  lemma {:induction false} CopiedRecord(s: bytes, d: bytes, j: nat, dj: nat, off: nat)
    requires |s| == |d| && Marked(s, j) && HasSlot(d, dj) && off < Pow256(4)
    requires OffAt(s, j) + SizeAt(s, j) <= |s|
    requires HasAt(d, SlotAddr(|d|, dj), RecordAt(s, j))
    ensures SlotIs(Put(d, SlotAddr(|d|, dj) + OFFSET_FIELD, Le(off, 4)), dj, FrameAt(s, j), off)
  {
    hide Put, Le, FieldAt, Pow256;
    var sa, a := SlotAddr(|s|, j), SlotAddr(|d|, dj);
    var rec := s[sa..sa + RECORD];
    PatchedRecord(d, Put(d, a + OFFSET_FIELD, Le(off, 4)), a, rec, off);
    SubField(s, sa, rec, 0, 4);
    SubField(s, sa, rec, 8, 8);
    SubField(s, sa, rec, 16, 4);
    SubField(s, sa, rec, 24, 4);
  }

  lemma {:induction false} HoldsPut(img: bytes, fs: seq<Frame>, off: nat, t: bytes)
    requires Holds(img, fs)
    requires Total(fs) <= off && off + |t| <= |img| - |fs| * RECORD
    ensures Holds(Put(img, off, t), fs)
  {
    PutAgrees(img, off, t);
    HoldsFrame(img, Put(img, off, t), fs, off, off + |t|);
  }

  lemma {:induction false} HasAtPut(img: bytes, off: nat, t: bytes, i: nat, u: bytes)
    requires HasAt(img, i, u) && i + |u| <= off && off + |t| <= |img|
    ensures HasAt(Put(img, off, t), i, u)
  {
    PutAgrees(img, off, t);
    HasAtAgree(img, Put(img, off, t), off, off + |t|, i, u);
  }

  lemma {:induction false} PlaceCopyKeeps(d: bytes, fs: seq<Frame>, data: bytes, rec: bytes)
    requires |rec| == RECORD && Total(fs) + |data| <= SlotAddr(|d|, |fs| + 1)
    requires Holds(d, fs)
    ensures Holds(PlaceCopy(d, data, rec, Total(fs), |fs|), fs)
  {
    var lo, a := Total(fs), SlotAddr(|d|, |fs|);
    HoldsPut(d, fs, lo, data);
    HoldsPut(Put(d, lo, data), fs, a, rec);
    HoldsPut(Put(Put(d, lo, data), a, rec), fs, a + OFFSET_FIELD, Le(lo, 4));
  }

  lemma {:induction false} PlaceCopyData(d: bytes, lo: nat, dj: nat, data: bytes, rec: bytes)
    requires |rec| == RECORD && lo + |data| <= SlotAddr(|d|, dj + 1)
    ensures HasAt(PlaceCopy(d, data, rec, lo, dj), lo, data)
  {
    var a := SlotAddr(|d|, dj);
    var d1 := Put(d, lo, data);
    var d2 := Put(d1, a, rec);
    PutAgrees(d, lo, data);
    HasAtPut(d1, a, rec, lo, data);
    HasAtPut(d2, a + OFFSET_FIELD, Le(lo, 4), lo, data);
  }

  lemma {:induction false} CopyFrameHolds(d: bytes, fs: seq<Frame>, f: Frame, rec: bytes)
    requires |rec| == RECORD && Total(fs) + |f.data| <= SlotAddr(|d|, |fs| + 1)
    requires Holds(d, fs)
    requires SlotIs(PlaceCopy(d, f.data, rec, Total(fs), |fs|), |fs|, f, Total(fs))
    ensures Holds(CopyFrame(d, f.data, rec, Total(fs), |fs|), fs + [f])
  {
    var d3 := PlaceCopy(d, f.data, rec, Total(fs), |fs|);
    PlaceCopyKeeps(d, fs, f.data, rec);
    PlaceCopyData(d, Total(fs), |fs|, f.data, rec);
    HoldsExtend(d3, fs, f);
    TotalSnoc(fs, f);
    HoldsPut(d3, fs + [f], SlotAddr(|d|, |fs| + 1) + OFFSET_FIELD, Le(Total(fs) + |f.data|, 4));
  }

  lemma {:induction false} CopyHolds(s: bytes, d: bytes, j: nat, fs: seq<Frame>)
    requires |s| == |d| < Pow256(4) && Marked(s, j) && CopySafe(s, j, Total(fs), |fs|)
    requires Holds(d, fs)
    ensures Holds(CopySlot(s, d, j, Total(fs), |fs|), fs + [FrameAt(s, j)])
  {
    hide Put, FieldAt, Le, Holds, Total, Pow256;
    var f, a, rec := FrameAt(s, j), SlotAddr(|d|, |fs|), RecordAt(s, j);
    var d1 := Put(d, Total(fs), f.data);
    assert HasAt(Put(d1, a, rec), a, rec) by { PutAgrees(d1, a, rec); }
    CopiedRecord(s, Put(d1, a, rec), j, |fs|, Total(fs));
    CopyFrameHolds(d, fs, f, rec);
  }

  lemma {:induction false} CopyTotal(s: bytes, j: nat, fs: seq<Frame>)
    requires CopySafe(s, j, Total(fs), |fs|)
    ensures Total(fs + [FrameAt(s, j)]) == Total(fs) + SizeAt(s, j)
  {
    CopySlotFrame(s, j, Total(fs), |fs|);
    TotalSnoc(fs, FrameAt(s, j));
  }

  lemma {:induction false} MoveOn(s: bytes, j: nat, dOff: nat, dj: nat)
    requires MoveSafe(s, j, dOff, dj) && Marked(s, j)
    ensures CopySafe(s, j, dOff, dj) && MoveSafe(s, j + 1, dOff + SizeAt(s, j), dj + 1)
    ensures LiveFrames(s, j) == [FrameAt(s, j)] + LiveFrames(s, j + 1)
    ensures 0 <= |s| - (j + 1) * RECORD < |s| - j * RECORD
  {
  }

  lemma {:induction false} MoveStep(s: bytes, d: bytes, d': bytes, j: nat, dOff: nat, dj: nat, next: nat)
    requires |s| == |d| == |d'| && Marked(s, j) && CopySafe(s, j, dOff, dj) && next == dOff + SizeAt(s, j)
    requires d' == CopySlot(s, d, j, dOff, dj)
    requires MoveSafe(s, j, dOff, dj) && MoveSafe(s, j + 1, next, dj + 1)
    ensures MoveFrom(s, d, j, dOff, dj) == MoveFrom(s, d', j + 1, next, dj + 1)
  {
    hide FieldAt, CopySafe;
  }

  lemma {:induction false} MoveStop(s: bytes, d: bytes, j: nat, dOff: nat, dj: nat)
    requires |s| == |d| && MoveSafe(s, j, dOff, dj) && !Marked(s, j)
    ensures MoveFrom(s, d, j, dOff, dj) == d && LiveFrames(s, j) == []
  {
  }

  /** The copy loop appends every live frame it meets, byte for byte and with offsets
      rebased to prefix sums. */
  lemma {:induction false} MoveFromHolds(s: bytes, d: bytes, j: nat, dOff: nat, dj: nat, fs: seq<Frame>)
    requires |s| == |d| < Pow256(4) && MoveSafe(s, j, dOff, dj)
    requires dOff == Total(fs) && dj == |fs|
    requires Holds(d, fs)
    ensures Holds(MoveFrom(s, d, j, dOff, dj), fs + LiveFrames(s, j))
    decreases |s| - j * RECORD
  {
    hide *;
    if Marked(s, j) {
      MoveOn(s, j, dOff, dj);
      MoveStep(s, d, CopySlot(s, d, j, dOff, dj), j, dOff, dj, dOff + SizeAt(s, j));
      var f := FrameAt(s, j);
      CopyTotal(s, j, fs);
      CopyHolds(s, d, j, fs);
      MoveFromHolds(s, CopySlot(s, d, j, dOff, dj), j + 1, dOff + SizeAt(s, j), dj + 1, fs + [f]);
      ConcatAssoc(fs, [f], LiveFrames(s, j + 1));
    } else {
      MoveStop(s, d, j, dOff, dj);
      assert fs + [] == fs;
    }
  }

  /** MoveFramesToNextBuf into a reset buffer: the new buffer holds exactly the live frames
      from slot `k` on, and both of its cursors are right. */
  lemma {:induction false} MovedOk(src: Buf, k: nat, dst: Buf)
    requires |src.img| == |dst.img| < Pow256(4) && RECORD <= |dst.img|
    requires MoveSafe(src.img, k, 0, 0)
    requires Total(LiveFrames(src.img, k)) + (LiveFrom(src.img, k) + 1) * RECORD <= |src.img|
    ensures BufOk(Moved(src, k, dst)) && Frames(Moved(src, k, dst)) == LiveFrames(src.img, k)
  {
    hide Holds, MoveFrom, LiveFrames, LiveFrom, Put, Le, MoveSafe, Total, Frames, BufOk, Pow256;
    var d := Put(dst.img, SlotAddr(|dst.img|, 0) + OFFSET_FIELD, Le(0, 4));
    var fs := LiveFrames(src.img, k);
    NothingHeld(d);
    MoveFromHolds(src.img, d, k, 0, 0, []);
    assert [] + fs == fs;
    BufOkIntro(Moved(src, k, dst), fs);
  }

  lemma {:induction false} NothingHeld(img: bytes)
    ensures Holds(img, []) && Total([]) == 0
  {
  }

  // ------------------------------------------------------------ what the moved frames are

  lemma {:induction false} LiveFramesAt(img: bytes, j: nat, i: nat)
    requires i < LiveFrom(img, j)
    ensures LiveFrames(img, j)[i] == FrameAt(img, j + i)
    decreases i
  {
    hide FrameAt, FieldAt;
    if i > 0 { LiveFramesAt(img, j + 1, i - 1); }
  }

  /** From any slot of a held list, the live frames begin with the rest of the list. They are
      exactly the rest of the list if and only if the free slot below it is unmarked. */
  lemma {:induction false} LiveFramesHeld(img: bytes, fs: seq<Frame>, k: nat)
    requires Holds(img, fs) && k <= |fs|
    ensures |fs| - k <= LiveFrom(img, k)
    ensures LiveFrames(img, k)[..|fs| - k] == fs[k..]
    ensures LiveFrames(img, k) == fs[k..] <==> !Marked(img, |fs|)
  {
    forall i | k <= i < |fs| ensures Marked(img, i) { assert SlotHolds(img, fs, i); }
    LiveFromReaches(img, k, |fs|);
    var ls := LiveFrames(img, k);
    forall i | 0 <= i < |fs| - k ensures ls[i] == fs[k..][i] {
      assert SlotHolds(img, fs, k + i);
      SlotHoldsFrame(img, fs, k + i);
      LiveFramesAt(img, k, i);
    }
    if !Marked(img, |fs|) {
      LiveFromIs(img, k, |fs|);
    }
  }

  lemma {:induction false} LiveFromReaches(img: bytes, j: nat, n: nat)
    requires j <= n && forall i :: j <= i < n ==> Marked(img, i)
    ensures LiveFrom(img, j) >= n - j
    ensures Marked(img, n) ==> LiveFrom(img, j) > n - j
    decreases n - j
  {
    if j < n { LiveFromReaches(img, j + 1, n); }
  }

  /** Moving a held list never leaves either buffer when the moved frames fit the new one. */
  lemma {:induction false} MoveSafeHeld(img: bytes, fs: seq<Frame>, j: nat, dOff: nat, dj: nat)
    requires Holds(img, fs) && j <= |fs| && Room(|img|, fs)
    requires !Marked(img, |fs|)
    requires dOff <= Off(fs, j) && dj <= j
    ensures MoveSafe(img, j, dOff, dj)
    decreases |fs| - j
  {
    if j < |fs| {
      assert SlotHolds(img, fs, j);
      OffMonotone(fs, j, |fs|);
      assert CopySafe(img, j, dOff, dj);
      MoveSafeHeld(img, fs, j + 1, dOff + SizeAt(img, j), dj + 1);
    }
  }
}
