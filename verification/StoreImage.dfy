/** The `.store` image: frame bytes grow up from offset 0, fixed-size index records
    grow down from the end. Slot 0 is the topmost record, slot `j` lies `j` records
    below it. A slot is live while its head holds the magic number. */
module StoreImage {
  import opened Bytes

  const MAGIC: nat := 0x7a5d9e3b

  /** sizeof(struct storeinfo): head at 0, time at 8, index at 16, offset at 20,
      size at 24, 64 reserved bytes at 28; bytes 4..8 and 92..96 are padding. */
  const RECORD: nat := 96
  const OFFSET_FIELD: nat := 20

  datatype Frame = Frame(time: nat, idx: nat, data: bytes)

  predicate Encodable(f: Frame) {
    f.time < Pow256(8) && f.idx < Pow256(4) && |f.data| < Pow256(4)
  }

  // ------------------------------------------------------------ index records

  function RecordFront(time: nat, idx: nat): (r: bytes)
    ensures |r| == OFFSET_FIELD
  {
    Le(MAGIC, 4) + Zeros(4) + Le(time, 8) + Le(idx, 4)
  }

  function RecordBack(size: nat): (r: bytes)
    ensures |r| == RECORD - OFFSET_FIELD - 4
  {
    Le(size, 4) + Zeros(68)
  }

  function Record(time: nat, idx: nat, off: nat, size: nat): (r: bytes)
    ensures |r| == RECORD
  {
    RecordFront(time, idx) + Le(off, 4) + RecordBack(size)
  }

  /** Address of slot `j`; negative once the slots run out of the buffer. */
  function SlotAddr(cap: nat, j: nat): int { cap - (j + 1) * RECORD }

  function FieldAt(img: bytes, addr: nat, width: nat): nat
    requires addr + width <= |img|
  {
    FromLe(img[addr..addr + width])
  }

  predicate HasSlot(img: bytes, j: nat) { SlotAddr(|img|, j) >= 0 }

  predicate Marked(img: bytes, j: nat) {
    HasSlot(img, j) && FieldAt(img, SlotAddr(|img|, j), 4) == MAGIC
  }

  function TimeAt(img: bytes, j: nat): nat requires HasSlot(img, j) { FieldAt(img, SlotAddr(|img|, j) + 8, 8) }
  function IdxAt(img: bytes, j: nat): nat requires HasSlot(img, j) { FieldAt(img, SlotAddr(|img|, j) + 16, 4) }
  function OffAt(img: bytes, j: nat): nat requires HasSlot(img, j) { FieldAt(img, SlotAddr(|img|, j) + 20, 4) }
  function SizeAt(img: bytes, j: nat): nat requires HasSlot(img, j) { FieldAt(img, SlotAddr(|img|, j) + 24, 4) }

  lemma {:induction false} FieldOf(img: bytes, addr: nat, n: nat, k: nat)
    requires HasAt(img, addr, Le(n, k)) && n < Pow256(k)
    ensures FieldAt(img, addr, k) == n
  {
    FromLeLe(n, k);
  }

  lemma {:induction false} Pow256Facts()
    ensures Pow256(4) == 0x1_0000_0000
    ensures Pow256(8) == 0x1_0000_0000_0000_0000
  {
    assert Pow256(2) == 65536;
    assert Pow256(4) == 256 * (256 * Pow256(2));
    assert Pow256(6) == 256 * (256 * Pow256(4));
  }

  lemma {:induction false} FrontFields(img: bytes, a: nat, time: nat, idx: nat)
    requires HasAt(img, a, RecordFront(time, idx))
    requires time < Pow256(8) && idx < Pow256(4)
    ensures FieldAt(img, a, 4) == MAGIC
    ensures FieldAt(img, a + 8, 8) == time
    ensures FieldAt(img, a + 16, 4) == idx
  {
    HasAtConcat(img, a, Le(MAGIC, 4) + Zeros(4) + Le(time, 8), Le(idx, 4));
    HasAtConcat(img, a, Le(MAGIC, 4) + Zeros(4), Le(time, 8));
    HasAtConcat(img, a, Le(MAGIC, 4), Zeros(4));
    Pow256Facts();
    FieldOf(img, a, MAGIC, 4);
    FieldOf(img, a + 8, time, 8);
    FieldOf(img, a + 16, idx, 4);
  }

  lemma {:induction false} RecordParts(img: bytes, a: nat, time: nat, idx: nat, off: nat, size: nat)
    ensures HasAt(img, a, Record(time, idx, off, size)) <==>
            && HasAt(img, a, RecordFront(time, idx))
            && HasAt(img, a + OFFSET_FIELD, Le(off, 4))
            && HasAt(img, a + OFFSET_FIELD + 4, RecordBack(size))
  {
    HasAtConcat(img, a, RecordFront(time, idx) + Le(off, 4), RecordBack(size));
    HasAtConcat(img, a, RecordFront(time, idx), Le(off, 4));
  }

  /** Slot `j` is live and describes frame `f` stored at offset `off`. */
  predicate SlotIs(img: bytes, j: nat, f: Frame, off: nat) {
    && Marked(img, j)
    && TimeAt(img, j) == f.time && IdxAt(img, j) == f.idx
    && OffAt(img, j) == off && SizeAt(img, j) == |f.data|
  }

  /** Writing a record and reading its fields back. */
  lemma {:induction false} RecordFields(img: bytes, j: nat, f: Frame, off: nat)
    requires HasSlot(img, j) && Encodable(f) && off < Pow256(4)
    requires HasAt(img, SlotAddr(|img|, j), Record(f.time, f.idx, off, |f.data|))
    ensures SlotIs(img, j, f, off)
  {
    var a := SlotAddr(|img|, j);
    RecordParts(img, a, f.time, f.idx, off, |f.data|);
    FrontFields(img, a, f.time, f.idx);
    FieldOf(img, a + 20, off, 4);
    HasAtConcat(img, a + 24, Le(|f.data|, 4), Zeros(68));
    FieldOf(img, a + 24, |f.data|, 4);
  }

  // ------------------------------------------------------------ the file format in bytes

  /** Four bytes as a number, the lowest first. */
  function Word(b: bytes, i: nat): nat
    requires i + 4 <= |b|
  {
    b[i] as int + 0x100 * b[i + 1] as int + 0x1_0000 * b[i + 2] as int + 0x100_0000 * b[i + 3] as int
  }

  lemma {:induction false} FieldIsWord(img: bytes, a: nat)
    requires a + 4 <= |img|
    ensures FieldAt(img, a, 4) == Word(img, a)
  {
    var b := img[a..a + 4];
    assert b[1..][1..] == b[2..] && b[2..][1..] == b[3..] && b[3..][1..] == [];
    assert FromLe(b[3..]) == b[3] as int + 256 * FromLe([]);
    assert FromLe(b[2..]) == b[2] as int + 256 * FromLe(b[3..]);
    assert FromLe(b[1..]) == b[1] as int + 256 * FromLe(b[2..]);
    assert FromLe(b) == b[0] as int + 256 * FromLe(b[1..]);
  }

  lemma {:induction false} FieldIsWords(img: bytes, a: nat)
    requires a + 8 <= |img|
    ensures FieldAt(img, a, 8) == Word(img, a) + 0x1_0000_0000 * Word(img, a + 4)
  {
    hide Word;
    var b := img[a..a + 8];
    assert b[..4] == img[a..a + 4] && b[4..] == img[a + 4..a + 8];
    FieldIsWord(img, a);
    FieldIsWord(img, a + 4);
    FromLeFour(b);
  }

  lemma {:induction false} FromLeFour(b: bytes)
    requires |b| >= 4
    ensures FromLe(b) == FromLe(b[..4]) + 0x1_0000_0000 * FromLe(b[4..])
  {
    var c := b[..4];
    assert b[1..][1..] == b[2..] && b[2..][1..] == b[3..] && b[3..][1..] == b[4..];
    assert c[1..][1..] == c[2..] && c[2..][1..] == c[3..] && c[3..][1..] == [];
    assert FromLe(c[3..]) == c[3] as int + 256 * FromLe([]);
    assert FromLe(c[2..]) == c[2] as int + 256 * FromLe(c[3..]);
    assert FromLe(b[3..]) == b[3] as int + 256 * FromLe(b[4..]);
    assert FromLe(b[2..]) == b[2] as int + 256 * FromLe(b[3..]);
  }

  /** A slot is the record of 96 bytes that many records below the end: the mark in bytes 0 to 3, the time in
      8 to 15, the frame number in 16 to 19, its offset in 20 to 23 and its size in 24 to 27. */
  lemma {:induction false} SlotLayout(img: bytes, j: nat)
    ensures HasSlot(img, j) <==> 96 * (j + 1) <= |img|
    ensures HasSlot(img, j) ==>
              var a := |img| - 96 * (j + 1);
              && (Marked(img, j) <==> Word(img, a) == 0x7a5d9e3b)
              && TimeAt(img, j) == Word(img, a + 8) + 0x1_0000_0000 * Word(img, a + 12)
              && IdxAt(img, j) == Word(img, a + 16) && OffAt(img, j) == Word(img, a + 20) && SizeAt(img, j) == Word(img, a + 24)
  {
    hide Word, FieldAt;
    if HasSlot(img, j) {
      var a := SlotAddr(|img|, j);
      FieldIsWord(img, a);
      FieldIsWords(img, a + 8);
      FieldIsWord(img, a + 16);
      FieldIsWord(img, a + 20);
      FieldIsWord(img, a + 24);
    }
  }

  lemma {:induction false} FieldAgree(img: bytes, img': bytes, lo: nat, hi: nat, addr: nat, width: nat)
    requires AgreeOutside(img, img', lo, hi)
    requires addr + width <= lo || hi <= addr
    requires addr + width <= |img|
    ensures FieldAt(img', addr, width) == FieldAt(img, addr, width)
  {
    HasAtAgree(img, img', lo, hi, addr, img[addr..addr + width]);
  }

  lemma {:induction false} SlotAgree(img: bytes, img': bytes, lo: nat, hi: nat, j: nat, f: Frame, off: nat)
    requires SlotIs(img, j, f, off) && AgreeOutside(img, img', lo, hi)
    requires hi <= SlotAddr(|img|, j)
    ensures SlotIs(img', j, f, off)
  {
    var a := SlotAddr(|img|, j);
    FieldAgree(img, img', lo, hi, a, 4);
    FieldAgree(img, img', lo, hi, a + 8, 8);
    FieldAgree(img, img', lo, hi, a + 16, 4);
    FieldAgree(img, img', lo, hi, a + 20, 4);
    FieldAgree(img, img', lo, hi, a + 24, 4);
  }

  // ------------------------------------------------------------ frame lists

  /** Offset of frame `j`: the sizes of the frames before it. */
  function Off(fs: seq<Frame>, j: nat): nat
    requires j <= |fs|
  {
    if j == 0 then 0 else Off(fs, j - 1) + |fs[j - 1].data|
  }

  /** Bytes taken by a list of frames. */
  function Total(fs: seq<Frame>): nat { Off(fs, |fs|) }

  /** The frames and one free slot fit below `cap` bytes. */
  predicate Room(cap: nat, fs: seq<Frame>) { Total(fs) + (|fs| + 1) * RECORD <= cap }

  /** Frame `j` lies at its offset and slot `j` describes it. */
  predicate SlotHolds(img: bytes, fs: seq<Frame>, j: nat)
    requires j < |fs|
  {
    HasAt(img, Off(fs, j), fs[j].data) && SlotIs(img, j, fs[j], Off(fs, j))
  }

  /** The image holds `fs`: contiguous data from offset 0 and one record per frame. */
  ghost predicate Holds(img: bytes, fs: seq<Frame>) {
    forall j :: 0 <= j < |fs| ==> SlotHolds(img, fs, j)
  }

  lemma {:induction false} OffMonotone(fs: seq<Frame>, i: nat, j: nat)
    requires i < j <= |fs|
    ensures Off(fs, i) + |fs[i].data| <= Off(fs, j)
  {
    if i < j - 1 { OffMonotone(fs, i, j - 1); }
  }

  lemma {:induction false} OffSame(fs: seq<Frame>, gs: seq<Frame>, j: nat)
    requires j <= |fs| && j <= |gs|
    requires forall i :: 0 <= i < j ==> fs[i] == gs[i]
    ensures Off(fs, j) == Off(gs, j)
  {
    if j > 0 { OffSame(fs, gs, j - 1); }
  }

  lemma {:induction false} TotalSnoc(fs: seq<Frame>, f: Frame)
    ensures Total(fs + [f]) == Total(fs) + |f.data|
  {
    OffSame(fs, fs + [f], |fs|);
  }

  lemma {:induction false} TotalPrefix(fs: seq<Frame>, k: nat)
    requires k <= |fs|
    ensures Total(fs[..k]) == Off(fs, k) <= Total(fs)
  {
    OffSame(fs, fs[..k], k);
    if k < |fs| { OffMonotone(fs, k, |fs|); }
  }

  /** Changes between the data and the records of `fs` do not disturb them. */
  lemma {:induction false} HoldsFrame(img: bytes, img': bytes, fs: seq<Frame>, lo: nat, hi: nat)
    requires Holds(img, fs) && AgreeOutside(img, img', lo, hi)
    requires Total(fs) <= lo && hi <= |img| - |fs| * RECORD
    ensures Holds(img', fs)
  {
    forall j | 0 <= j < |fs| ensures SlotHolds(img', fs, j) {
      assert SlotHolds(img, fs, j);
      OffMonotone(fs, j, |fs|);
      HasAtAgree(img, img', lo, hi, Off(fs, j), fs[j].data);
      SlotAgree(img, img', lo, hi, j, fs[j], Off(fs, j));
    }
  }

  lemma {:induction false} SlotHoldsSame(img: bytes, fs: seq<Frame>, gs: seq<Frame>, j: nat)
    requires j < |fs| && j < |gs| && SlotHolds(img, fs, j)
    requires forall i :: 0 <= i <= j ==> fs[i] == gs[i]
    ensures SlotHolds(img, gs, j)
  {
    OffSame(fs, gs, j);
  }

  lemma {:induction false} HoldsPrefix(img: bytes, fs: seq<Frame>, k: nat)
    requires Holds(img, fs) && k <= |fs|
    ensures Holds(img, fs[..k])
  {
    forall j | 0 <= j < k ensures SlotHolds(img, fs[..k], j) {
      assert SlotHolds(img, fs, j);
      SlotHoldsSame(img, fs, fs[..k], j);
    }
  }

  lemma {:induction false} HoldsExtend(img: bytes, fs: seq<Frame>, f: Frame)
    requires Holds(img, fs)
    requires HasAt(img, Total(fs), f.data) && SlotIs(img, |fs|, f, Total(fs))
    ensures Holds(img, fs + [f])
  {
    var gs := fs + [f];
    forall j | 0 <= j < |gs| ensures SlotHolds(img, gs, j) {
      if j < |fs| {
        assert SlotHolds(img, fs, j);
        SlotHoldsSame(img, fs, gs, j);
      } else {
        OffSame(fs, gs, j);
      }
    }
  }

  // ------------------------------------------------------------ the reader

  function Slice(img: bytes, off: nat, size: nat): bytes {
    if off + size <= |img| then img[off..off + size] else []
  }

  /** The frame behind slot `j`, as far as it lies inside the image. */
  function FrameAt(img: bytes, j: nat): Frame
    requires HasSlot(img, j)
  {
    Frame(TimeAt(img, j), IdxAt(img, j), Slice(img, OffAt(img, j), SizeAt(img, j)))
  }

  /** The frames behind slots 0 .. n-1. */
  function FirstFrames(img: bytes, n: nat): (fs: seq<Frame>)
    requires n * RECORD <= |img|
    ensures |fs| == n
  {
    if n == 0 then [] else FirstFrames(img, n - 1) + [FrameAt(img, n - 1)]
  }

  /** Number of live slots from slot `j` on, up to the first unmarked one. */
  function LiveFrom(img: bytes, j: nat): (n: nat)
    ensures n > 0 ==> (j + n) * RECORD <= |img|
    decreases |img| - j * RECORD
  {
    if Marked(img, j) then 1 + LiveFrom(img, j + 1) else 0
  }

  /** The frames behind slots 0, 1, 2, ... up to the first unmarked one. */
  function ReadAll(img: bytes): seq<Frame> {
    FirstFrames(img, LiveFrom(img, 0))
  }

  lemma {:induction false} LiveFromIs(img: bytes, j: nat, n: nat)
    requires j <= n && (forall i :: j <= i < n ==> Marked(img, i)) && !Marked(img, n)
    ensures LiveFrom(img, j) == n - j
    decreases n - j
  {
    if j < n { LiveFromIs(img, j + 1, n); }
  }

  lemma {:induction false} SlotHoldsFrame(img: bytes, fs: seq<Frame>, j: nat)
    requires j < |fs| && SlotHolds(img, fs, j)
    ensures FrameAt(img, j) == fs[j]
  {
  }

  /** A held list is read back by decoding as many slots. */
  lemma {:induction false} HoldsFirstFrames(img: bytes, fs: seq<Frame>, n: nat)
    requires Holds(img, fs) && n <= |fs| && |fs| * RECORD <= |img|
    ensures FirstFrames(img, n) == fs[..n]
  {
    if n > 0 {
      HoldsFirstFrames(img, fs, n - 1);
      assert FrameAt(img, n - 1) == fs[n - 1] by {
        assert SlotHolds(img, fs, n - 1);
        SlotHoldsFrame(img, fs, n - 1);
      }
      TakeSnoc(fs, n);
    }
  }

  /** An image whose next slot is clear is self-delimiting: the player reads back
      exactly the frames it holds. */
  lemma {:induction false} SelfDelimiting(img: bytes, fs: seq<Frame>)
    requires Holds(img, fs) && |fs| * RECORD <= |img|
    requires !Marked(img, |fs|)
    ensures ReadAll(img) == fs
  {
    forall i | 0 <= i < |fs| ensures Marked(img, i) { assert SlotHolds(img, fs, i); }
    LiveFromIs(img, 0, |fs|);
    HoldsFirstFrames(img, fs, |fs|);
    assert fs[..|fs|] == fs;
  }

  /** The magic number has no zero in its low byte. */
  lemma {:induction false} ZeroByteUnmarked(img: bytes, j: nat)
    requires HasSlot(img, j) && img[SlotAddr(|img|, j)] == 0
    ensures !Marked(img, j)
  {
    var h := img[SlotAddr(|img|, j)..SlotAddr(|img|, j) + 4];
    assert FromLe(h) == h[0] + 256 * FromLe(h[1..]);
  }
}
