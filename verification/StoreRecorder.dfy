/** The recorder as it runs: byte arrays written in place, cursors and buffer references
    updated by each call. Every method is tied to the step function it implements. */
module StoreRecorder {
  import opened Bytes
  import opened AnnexB
  import opened StoreImage
  import opened StoreDevice
  import opened StoreSteps

  const BLOCK: nat := 4096

  /** memset to zero. */
  method Clear(a: array<byte>, lo: nat, hi: nat)
    requires lo <= hi <= a.Length
    modifies a
    ensures a[..] == Cleared(old(a[..]), lo, hi)
  {
    CopyInto(a, lo, Zeros(hi - lo));
  }

  class StoreBuffer {
    const data: array<byte>
    var off: nat
    var info: nat
    var start: nat

    constructor (data: array<byte>, start: nat)
      requires data.Length >= RECORD
      ensures this.data == data
      ensures Abs() == Reset(Buf(data[..], 0, 0, 0), start)
    {
      this.data := data;
      this.off, this.info, this.start := 0, data.Length - RECORD, start;
    }

    ghost function Abs(): Buf
      reads this, data
    {
      Buf(data[..], off, info, start)
    }

    /** The frame's bytes at the data cursor, its record at the index cursor. */
    method Put(frame: bytes, ms: nat, idx: nat)
      requires Fits(Abs(), |frame|)
      modifies this, data
      ensures Abs() == Append(old(Abs()), Frame(ms, idx, frame))
    {
      CopyInto(data, off, frame);
      CopyInto(data, info, Record(ms, idx, off, |frame|));
      off, info := off + |frame|, info - RECORD;
    }
  }

  // ------------------------------------------------------------ the move

  lemma {:induction false} OffCons(f: Frame, fs: seq<Frame>, j: nat)
    requires j <= |fs|
    ensures Off([f] + fs, j + 1) == |f.data| + Off(fs, j)
  {
    if j > 0 { OffCons(f, fs, j - 1); }
  }

  /** One turn of the copy loop moves one frame from the rest to the done part. */
  lemma {:induction false} LiveStep(s: bytes, j: nat)
    requires Marked(s, j) && OffAt(s, j) + SizeAt(s, j) <= |s|
    ensures Total(LiveFrames(s, j)) == SizeAt(s, j) + Total(LiveFrames(s, j + 1))
    ensures LiveFrom(s, j) == 1 + LiveFrom(s, j + 1)
  {
    hide FieldAt;
    OffCons(FrameAt(s, j), LiveFrames(s, j + 1), LiveFrom(s, j + 1));
  }

  /** The offset that a turn parks in the slot below is the one the next turn reads. */
  lemma {:induction false} ParkedOffset(s: bytes, d: bytes, j: nat, dOff: nat, dj: nat)
    requires |s| == |d| < Pow256(4) && CopySafe(s, j, dOff, dj)
    ensures FieldAt(CopySlot(s, d, j, dOff, dj), SlotAddr(|d|, dj + 1) + OFFSET_FIELD, 4) == dOff + SizeAt(s, j)
  {
    hide PlaceCopy, FieldAt, Put, Le;
    CopySlotFrame(s, j, dOff, dj);
    var f, rec := FrameAt(s, j), RecordAt(s, j);
    var d3 := PlaceCopy(d, f.data, rec, dOff, dj);
    var a := SlotAddr(|d|, dj + 1) + OFFSET_FIELD;
    PutAgrees(d3, a, Le(dOff + |f.data|, 4));
    FieldOf(Put(d3, a, Le(dOff + |f.data|, 4)), a, dOff + |f.data|, 4);
  }

  /** The walk up the records reads no frame outside the buffer. */
  predicate WalkInBounds(img: bytes, j: int)
    requires j < 0 || HasSlot(img, j)
    decreases j
  {
    j < 0 || !Marked(img, j) ||
    (OffAt(img, j) + SizeAt(img, j) + 4 <= |img| && (KeySlot(img, j) || WalkInBounds(img, j - 1)))
  }

  lemma {:induction false} HeldWalk(img: bytes, fs: seq<Frame>, j: int)
    requires Holds(img, fs) && Room(|img|, fs) && -1 <= j < |fs|
    ensures j >= 0 ==> HasSlot(img, j)
    ensures WalkInBounds(img, j)
    decreases j
  {
    hide KeySlot, FieldAt;
    if j >= 0 {
      assert SlotHolds(img, fs, j);
      OffMonotone(fs, j, |fs|);
      HeldWalk(img, fs, j - 1);
    }
  }

  method ReadField(a: array<byte>, addr: nat, width: nat) returns (n: nat)
    requires addr + width <= a.Length
    ensures n == FieldAt(a[..], addr, width)
  {
    assert a[..][addr..addr + width] == a[addr..addr + width];
    n := FromLe(a[addr..addr + width]);
  }

  lemma {:induction false} WalkStep(img: bytes, j: nat, key: bool)
    requires HasSlot(img, j) && Marked(img, j) && WalkInBounds(img, j)
    requires key == KeyScan(img, OffAt(img, j), OffAt(img, j) + SizeAt(img, j))
    ensures j > 0 ==> HasSlot(img, j - 1)
    ensures NewestKey(img, j) == if key then j else NewestKey(img, j - 1)
    ensures !key ==> WalkInBounds(img, j - 1)
  {
    hide KeyScan, FieldAt;
  }

  lemma {:induction false} WalkStart(img: bytes, j: nat)
    requires HasSlot(img, j) && WalkInBounds(img, j)
    ensures Marked(img, j) ==> OffAt(img, j) + SizeAt(img, j) + 4 <= |img|
    ensures !Marked(img, j) ==> NewestKey(img, j) == -1
  {
    hide KeySlot, FieldAt;
  }

  /** First loop of MoveFramesToNextBuf: up from the newest record to the newest key frame. */
  method FindGroup(src: StoreBuffer) returns (j: int)
    requires src.info + RECORD <= src.data.Length
    requires WalkInBounds(src.data[..], Count(src.Abs()) - 1)
    ensures j == GroupStart(src.Abs())
  {
    hide KeyScan, FieldAt, NewestKey, WalkInBounds;
    ghost var img := src.data[..];
    var cap := src.data.Length;
    j := (cap - RECORD - src.info) / RECORD - 1;
    while j >= 0
      invariant j >= 0 ==> HasSlot(img, j)
      invariant WalkInBounds(img, j)
      invariant GroupStart(src.Abs()) == NewestKey(img, j)
    {
      WalkStart(img, j);
      var head := ReadField(src.data, SlotAddr(cap, j), 4);
      if head != MAGIC {
        return -1;
      }
      var off := ReadField(src.data, SlotAddr(cap, j) + 20, 4);
      var size := ReadField(src.data, SlotAddr(cap, j) + 24, 4);
      var key := ParseKeyFrame(src.data, off, size);
      WalkStep(img, j, key);
      if key {
        return;
      }
      j := j - 1;
    }
    NoKey(img, j);
    j := -1;
  }

  lemma {:induction false} NoKey(img: bytes, j: int)
    requires j < 0
    ensures NewestKey(img, j) == -1
  {
  }

  /** One turn of the second loop: data, record, rebased offset, next offset. */
  method CopyTurn(src: array<byte>, dst: array<byte>, j: nat, dOff: nat, dj: nat) returns (size: nat)
    requires src != dst && src.Length == dst.Length
    requires CopySafe(src[..], j, dOff, dj)
    modifies dst
    ensures dst[..] == CopySlot(src[..], old(dst[..]), j, dOff, dj)
    ensures size == SizeAt(src[..], j)
  {
    hide FieldAt, Put;
    ghost var s := src[..];
    var sa, a := SlotAddr(src.Length, j), SlotAddr(dst.Length, dj);
    var off := ReadField(src, sa + 20, 4);
    size := ReadField(src, sa + 24, 4);
    CopySlotFrame(s, j, dOff, dj);
    assert src[off..off + size] == FrameAt(s, j).data;
    CopyInto(dst, dOff, src[off..off + size]);
    assert src[sa..sa + RECORD] == RecordAt(s, j);
    CopyInto(dst, a, src[sa..sa + RECORD]);
    CopyInto(dst, a + OFFSET_FIELD, Le(dOff, 4));
    CopyInto(dst, a - RECORD + OFFSET_FIELD, Le(dOff + size, 4));
  }

  /** What holds between the turns: `d` is the new image so far, `off` its data cursor and
      `dj` the number of records copied; the rest of the loop starts at slot `j`. */
  predicate Moving(s: bytes, d0: bytes, k: nat, d: bytes, j: nat, off: nat, dj: nat) {
    && |s| == |d0| == |d| < Pow256(4)
    && j == k + dj && HasSlot(s, dj)
    && MoveSafe(s, k, 0, 0) && MoveSafe(s, j, off, dj)
    && FieldAt(d, SlotAddr(|d|, dj) + OFFSET_FIELD, 4) == off
    && MoveFrom(s, d0, k, 0, 0) == MoveFrom(s, d, j, off, dj)
    && Total(LiveFrames(s, k)) == off + Total(LiveFrames(s, j))
    && LiveFrom(s, k) == dj + LiveFrom(s, j)
  }

  lemma {:induction false} MovingTurn(s: bytes, d0: bytes, k: nat, d: bytes, j: nat, off: nat, dj: nat)
    requires Moving(s, d0, k, d, j, off, dj) && Marked(s, j)
    ensures CopySafe(s, j, off, dj)
    ensures Moving(s, d0, k, CopySlot(s, d, j, off, dj), j + 1, off + SizeAt(s, j), dj + 1)
    ensures (j + 1) * RECORD <= |s|
  {
    hide FieldAt, MoveFrom, MoveSafe, LiveFrames, LiveFrom, Total, CopySlot, Marked;
    MoveOn(s, j, off, dj);
    MoveStep(s, d, CopySlot(s, d, j, off, dj), j, off, dj, off + SizeAt(s, j));
    LiveStep(s, j);
    ParkedOffset(s, d, j, off, dj);
  }

  lemma {:induction false} MovingDone(src: Buf, dst: Buf, k: nat, d: bytes, j: nat, off: nat, dj: nat)
    requires RECORD <= |dst.img| == |src.img|
    requires Moving(src.img, Put(dst.img, SlotAddr(|dst.img|, 0) + OFFSET_FIELD, Le(0, 4)), k, d, j, off, dj)
    requires !Marked(src.img, j)
    ensures (LiveFrom(src.img, k) + 1) * RECORD <= |src.img|
    ensures Buf(d, off, SlotAddr(|d|, dj), dst.start) == Moved(src, k, dst)
  {
    hide FieldAt, MoveFrom, MoveSafe, LiveFrames, LiveFrom, Total, Put, Le, Marked, Pow256;
    MoveStop(src.img, d, j, off, dj);
    NothingHeld(d);
  }

  /** Second loop of MoveFramesToNextBuf: copy records and data down to the first unmarked slot. */
  method CopyGroup(src: StoreBuffer, k: nat, dst: StoreBuffer)
    requires src != dst && src.data != dst.data && src.data.Length == dst.data.Length < Pow256(4)
    requires dst.off == 0 && dst.info + RECORD == dst.data.Length
    requires MoveSafe(src.data[..], k, 0, 0) && (LiveFrom(src.data[..], k) + 1) * RECORD <= src.data.Length
    modifies dst, dst.data
    ensures dst.Abs() == Moved(src.Abs(), k, old(dst.Abs()))
  {
    hide FieldAt, Moving, Moved, Put, Pow256, MoveSafe, LiveFrom, CopySlot;
    ghost var s, dst0 := src.data[..], dst.Abs();
    var cap := src.data.Length;
    var j, dj := k, 0;
    CopyInto(dst.data, dst.info + OFFSET_FIELD, Le(0, 4));
    ghost var d0 := dst.data[..];
    MovingStart(s, dst0.img, k);
    while (j + 1) * RECORD <= cap
      invariant src.data[..] == s && dst.start == dst0.start
      invariant Moving(s, d0, k, dst.data[..], j, dst.off, dj)
      decreases cap - j * RECORD
    {
      var head := ReadField(src.data, SlotAddr(cap, j), 4);
      if head != MAGIC {
        break;
      }
      MovingTurn(s, d0, k, dst.data[..], j, dst.off, dj);
      MovingField(s, d0, k, dst.data[..], j, dst.off, dj);
      var dOff := ReadField(dst.data, SlotAddr(cap, dj) + OFFSET_FIELD, 4);
      var size := CopyTurn(src.data, dst.data, j, dOff, dj);
      dst.off := dst.off + size;
      j, dj := j + 1, dj + 1;
    }
    MovingField(s, d0, k, dst.data[..], j, dst.off, dj);
    MovingDone(src.Abs(), dst0, k, dst.data[..], j, dst.off, dj);
    dst.info := SlotAddr(cap, dj);
  }

  lemma {:induction false} MovingStart(s: bytes, d: bytes, k: nat)
    requires |s| == |d| < Pow256(4) && RECORD <= |d| && MoveSafe(s, k, 0, 0)
    ensures var d0 := Put(d, SlotAddr(|d|, 0) + OFFSET_FIELD, Le(0, 4));
            Moving(s, d0, k, d0, k, 0, 0)
  {
    ParkedZero(d, SlotAddr(|d|, 0) + OFFSET_FIELD);
  }

  lemma {:induction false} MovingField(s: bytes, d0: bytes, k: nat, d: bytes, j: nat, off: nat, dj: nat)
    requires Moving(s, d0, k, d, j, off, dj)
    ensures HasSlot(s, dj) && |d| == |s| && FieldAt(d, SlotAddr(|d|, dj) + OFFSET_FIELD, 4) == off
  {
  }

  lemma {:induction false} ParkedZero(d: bytes, a: nat)
    requires a + 4 <= |d|
    ensures FieldAt(Put(d, a, Le(0, 4)), a, 4) == 0
  {
    PutAgrees(d, a, Le(0, 4));
    FieldOf(Put(d, a, Le(0, 4)), a, 0, 4);
  }

  lemma {:induction false} GroupSafeFacts(b: Buf)
    requires GroupSafe(b)
    ensures var k := GroupStart(b);
            && k >= 0 && HasSlot(b.img, k)
            && MoveSafe(b.img, k, 0, 0)
            && (LiveFrom(b.img, k) + 1) * RECORD <= |b.img|
            && OffAt(b.img, k) <= SlotAddr(|b.img|, k) + RECORD
  {
    hide MoveSafe, LiveFrom, LiveFrames, Total, FieldAt, NewestKey;
  }

  /** MoveFramesToNextBuf and the clearing of the moved group in the old buffer. */
  method MoveGroup(src: StoreBuffer, dst: StoreBuffer)
    requires src != dst && src.data != dst.data && src.data.Length == dst.data.Length < Pow256(4)
    requires dst.off == 0 && dst.info + RECORD == dst.data.Length
    requires GroupSafe(src.Abs()) && WalkInBounds(src.data[..], Count(src.Abs()) - 1)
    modifies dst, src.data, dst.data
    ensures dst.Abs() == Moved(old(src.Abs()), GroupStart(old(src.Abs())), old(dst.Abs()))
    ensures src.Abs() == WithoutGroup(old(src.Abs()))
  {
    hide MoveSafe, LiveFrom, LiveFrames, Total, FieldAt, NewestKey, WalkInBounds, Moved, Cleared, Put, Pow256, KeySlot;
    GroupSafeFacts(src.Abs());
    var k := FindGroup(src);
    CopyGroup(src, k, dst);
    var off := ReadField(src.data, SlotAddr(src.data.Length, k) + 20, 4);
    Clear(src.data, off, SlotAddr(src.data.Length, k) + RECORD);
  }

  /** The file writer's block loop: the file becomes the whole buffer. */
  method WriteBlocks(data: array<byte>) returns (file: bytes)
    requires data.Length % BLOCK == 0
    ensures file == data[..]
  {
    file := [];
    var total := 0;
    while total < data.Length
      invariant total <= data.Length && total % BLOCK == 0
      invariant file == data[..total]
    {
      file := file + data[total..total + BLOCK];
      total := total + BLOCK;
    }
  }

  // ------------------------------------------------------------ the device

  class Recorder {
    const ping: StoreBuffer
    const pong: StoreBuffer
    var cur: StoreBuffer
    var wr: StoreBuffer?
    var frameIndex: nat
    ghost var stopping: bool

    ghost predicate Shape()
      reads this
    {
      && ping != pong && ping.data != pong.data
      && (cur == ping || cur == pong)
      && (wr == null || wr == ping || wr == pong)
    }

    ghost function SideOf(b: StoreBuffer): Side { if b == ping then Ping else Pong }

    ghost function Abs(): Dev
      requires Shape()
      reads this, ping, pong, ping.data, pong.data
    {
      Dev(ping.Abs(), pong.Abs(), SideOf(cur), if wr == null then None else Some(SideOf(wr)), frameIndex, stopping)
    }

    /** AddStoreDevice: two fresh buffers with whatever the allocator left in them. */
    constructor (cap: nat, a: array<byte>, b: array<byte>, t: nat)
      requires a != b && a.Length == b.Length == cap >= RECORD
      ensures Shape() && fresh(ping) && fresh(pong) && ping.data == a && pong.data == b
      ensures Abs() == NewDevice(a[..], b[..], t)
    {
      var p := new StoreBuffer(a, 0);
      var q := new StoreBuffer(b, t);
      ping, pong, cur, wr, frameIndex, stopping := p, q, p, null, 0, false;
    }

    method RotateOnKey(now: nat)
      requires Shape() && ping.data.Length == pong.data.Length >= RECORD
      requires cur.off <= cur.info <= cur.data.Length - RECORD
      modifies this, ping, pong, ping.data, pong.data
      ensures Shape() && Abs() == RotateKey(old(Abs()), now)
    {
      hide Cleared;
      var remain := cur.info - cur.off;
      Clear(cur.data, cur.off, cur.off + remain + RECORD);
      if cur == ping {
        cur, wr := pong, ping;
      } else {
        cur, wr := ping, pong;
      }
      cur.off, cur.info, cur.start := 0, cur.data.Length - RECORD, now;
    }

    method RotateWithGroup(now: nat)
      requires Shape() && ping.data.Length == pong.data.Length < Pow256(4)
      requires RECORD <= ping.data.Length
      requires GroupSafe(cur.Abs()) && WalkInBounds(cur.data[..], Count(cur.Abs()) - 1)
      modifies this, ping, pong, ping.data, pong.data
      ensures Shape() && Abs() == RotateGroup(old(Abs()), now)
    {
      hide GroupSafe, WalkInBounds, Moved, WithoutGroup, GroupStart, Count;
      GroupSafeFacts(cur.Abs());
      var cpy := if cur == ping then pong else ping;
      cpy.off, cpy.info, cpy.start := 0, cpy.data.Length - RECORD, now;
      MoveGroup(cur, cpy);
      wr := cur;
      cur := cpy;
    }

    lemma {:induction false} WalkOk()
      requires Shape() && DevOk(Abs()) && !stopping
      ensures WalkInBounds(cur.data[..], Count(cur.Abs()) - 1)
    {
      HeldWalk(cur.data[..], Frames(cur.Abs()), Count(cur.Abs()) - 1);
    }

    lemma {:induction false} RotateReady(mem: bytes, size: nat)
      requires Shape() && DevOk(Abs()) && !stopping
      requires size + 4 <= |mem| && RotationSafe(Abs(), mem, size) && Full(Abs(), size)
      ensures RECORD <= ping.data.Length == pong.data.Length < Pow256(4)
      ensures cur.off <= cur.info <= cur.data.Length - RECORD
      ensures WalkInBounds(cur.data[..], Count(cur.Abs()) - 1)
      ensures !KeyScan(mem, 0, size) ==> GroupSafe(cur.Abs())
    {
      hide WalkInBounds, GroupSafe, BufOk, Pow256, KeyScan;
      WalkOk();
    }

    method Rotate(mem: array<byte>, size: nat, now: nat)
      requires Shape() && mem != ping.data && mem != pong.data
      requires DevOk(Abs()) && !stopping
      requires size + 4 <= mem.Length && RotationSafe(Abs(), mem[..], size) && Full(Abs(), size)
      modifies this, ping, pong, ping.data, pong.data
      ensures Shape() && Abs() == MakeRoom(old(Abs()), old(mem[..]), size, now)
    {
      hide DevOk, RotationSafe, GroupSafe, WalkInBounds, RotateKey, RotateGroup, Pow256, KeyScan, Full;
      RotateReady(mem[..], size);
      var key := ParseKeyFrame(mem, 0, size);
      if !key {
        RotateWithGroup(now);
      } else {
        RotateOnKey(now);
      }
    }

    /** The part of WriteFrameToBuf from the `store` label on. */
    method StoreFrame(frame: bytes, ms: nat)
      requires Shape() && Fits(cur.Abs(), |frame|)
      modifies this, ping, pong, ping.data, pong.data
      ensures Shape() && Abs() == Store(old(Abs()), frame, ms)
      ensures cur == old(cur) && cur.off == old(cur.off) + |frame|
    {
      cur.Put(frame, ms, frameIndex);
      frameIndex := (frameIndex + 1) % 0x1_0000_0000;
    }

    /** WriteFrameToBuf without the stop flag. */
    method Write(mem: array<byte>, size: nat, ms: nat, now: nat)
      requires Shape() && mem != ping.data && mem != pong.data
      requires DevOk(Abs()) && !stopping && WriteSafe(Abs(), mem[..], size, ms, now)
      modifies this, ping, pong, ping.data, pong.data
      ensures Shape() && Abs() == WriteFrame(old(Abs()), old(mem[..]), size, ms, now)
    {
      hide MakeRoom, Store, KeyScan, RotationSafe, Pow256, BufOk, Append;
      ghost var d := Abs();
      NoRotation(d, mem[..], size, now);
      var remain := cur.info - cur.off;
      if remain < size + RECORD {
        Rotate(mem, size, now);
      }
      if cur.start == 0 {
        cur.start := now;
      }
      assert mem[..size] == mem[..][..size];
      StoreFrame(mem[..size], ms);
    }

    /** The body of the file writer's loop for one device: the whole buffer, block by block,
        unless its first slot is unmarked. */
    method FlushTurn() returns (file: Option<bytes>)
      requires Shape() && RECORD <= ping.data.Length == pong.data.Length && ping.data.Length % BLOCK == 0
      modifies this
      ensures Shape() && Abs() == Flush(old(Abs()))
      ensures file == FlushedFile(old(Abs()))
    {
      file := None;
      if wr != null {
        ghost var d := Abs();
        assert At(d, d.pending.value).img == wr.data[..];
        var head := ReadField(wr.data, wr.data.Length - RECORD, 4);
        if head == MAGIC {
          var written := WriteBlocks(wr.data);
          file := Some(written);
        }
        wr := null;
      }
    }

    /** WriteFrameToBuf with the stop flag, up to the wait for the file writer. The clearing as coded
        reaches `over` bytes behind the end of the buffer; the method stops at the end. */
    method Stop(mem: array<byte>, size: nat, ms: nat) returns (over: nat)
      requires Shape() && mem != ping.data && mem != pong.data
      requires StopSafe(Abs(), mem[..], size, ms)
      modifies this, ping, pong, ping.data, pong.data
      ensures Shape() && Abs() == StopBegin(old(Abs()), old(mem[..]), size, ms)
      ensures over == if Full(old(Abs()), size) then 0 else Overrun(old(cur.Abs()), size)
    {
      hide Append, Cleared, Pow256;
      var remain := cur.info - cur.off;
      if remain >= size + RECORD {
        assert mem[..size] == mem[..][..size];
        StoreFrame(mem[..size], ms);
      }
      var end := cur.off + remain + RECORD;
      over := if end > cur.data.Length then end - cur.data.Length else 0;
      Clear(cur.data, cur.off, end - over);
      wr := cur;
      stopping := true;
    }

    /** The rest of the stop, once the file has been written. */
    method FinishStop()
      requires Shape() && RECORD <= ping.data.Length == pong.data.Length && stopping && wr == null
      modifies this, ping, pong
      ensures Shape() && Abs() == StopEnd(old(Abs()))
    {
      cur.off, cur.info, cur.start := 0, cur.data.Length - RECORD, 0;
      stopping := false;
    }
  }

  // ------------------------------------------------------------ the reader

  /** GetOneFrameByIndex on an image: the frame and its time, or nothing when the slot is
      unmarked or the caller's buffer is too small. */
  function ReadFrame(img: bytes, idx: nat, outSize: nat): (r: Option<Frame>)
    requires HasSlot(img, idx)
  {
    if Marked(img, idx) && SizeAt(img, idx) <= outSize then Some(FrameAt(img, idx)) else None
  }

  /** src/store.cpp GetOneFrameByIndex: -1 on failure, else the size of the frame. */
  method GetOneFrameByIndex(idx: nat, frames: array<byte>, out: array<byte>, outSize: nat) returns (size: int, time: nat)
    requires frames != out && HasSlot(frames[..], idx) && outSize <= out.Length
    requires Marked(frames[..], idx) ==> OffAt(frames[..], idx) + SizeAt(frames[..], idx) <= frames.Length
    modifies out
    ensures ReadFrame(frames[..], idx, outSize).None? ==> size == -1 && out[..] == old(out[..])
    ensures ReadFrame(frames[..], idx, outSize).Some? ==>
              var f := ReadFrame(frames[..], idx, outSize).value;
              && size == |f.data| <= outSize && time == f.time && out[..] == Put(old(out[..]), 0, f.data)
  {
    hide FieldAt;
    size, time := -1, 0;
    var a := SlotAddr(frames.Length, idx);
    var head := ReadField(frames, a, 4);
    if head != MAGIC {
      return;
    }
    var n := ReadField(frames, a + 24, 4);
    if n > outSize {
      return;
    }
    var off := ReadField(frames, a + 20, 4);
    time := ReadField(frames, a + 8, 8);
    assert frames[off..off + n] == FrameAt(frames[..], idx).data;
    CopyInto(out, 0, frames[off..off + n]);
    size := n;
  }

  lemma {:induction false} LiveMarked(img: bytes, j: nat, i: nat)
    requires j <= i <= j + LiveFrom(img, j)
    ensures Marked(img, i) <==> i < j + LiveFrom(img, j)
    decreases i - j
  {
    hide FieldAt;
    if j < i { LiveMarked(img, j + 1, i); }
  }

  lemma {:induction false} FirstFramesAt(img: bytes, n: nat, i: nat)
    requires n * RECORD <= |img| && i < n
    ensures FirstFrames(img, n)[i] == FrameAt(img, i)
  {
    hide FrameAt;
    if i < n - 1 { FirstFramesAt(img, n - 1, i); }
  }

  /** Asking for the frames of an image one by one: number `i` gives frame `i` of ReadAll, and
      the first request past them fails. */
  lemma {:induction false} ReaderAgrees(img: bytes, i: nat, outSize: nat)
    requires HasSlot(img, i) && i <= |ReadAll(img)|
    ensures ReadFrame(img, i, outSize) ==
            if i < |ReadAll(img)| && SizeAt(img, i) <= outSize then Some(ReadAll(img)[i]) else None
  {
    LiveMarked(img, 0, i);
    if i < |ReadAll(img)| {
      FirstFramesAt(img, LiveFrom(img, 0), i);
    }
  }

  lemma {:induction false} HeldReadable(img: bytes, fs: seq<Frame>, i: nat, outSize: nat)
    requires Holds(img, fs) && HasSlot(img, |fs|) && !Marked(img, |fs|)
    requires i <= |fs| && (i < |fs| ==> |fs[i].data| <= outSize)
    ensures ReadFrame(img, i, outSize) == if i < |fs| then Some(fs[i]) else None
  {
    if i < |fs| {
      assert SlotHolds(img, fs, i);
      SlotHoldsFrame(img, fs, i);
    }
  }

  /** The buffer handed over on a key frame is a self-delimiting image: request `i` returns frame
      `i` for every `i` below the count, and fails at the count. */
  lemma {:induction false} GapReadable(b: Buf, i: nat, outSize: nat)
    requires BufOk(b) && i <= |Frames(b)| && (i < |Frames(b)| ==> |Frames(b)[i].data| <= outSize)
    ensures HasSlot(WithoutGap(b).img, i)
    ensures ReadFrame(WithoutGap(b).img, i, outSize) == if i < |Frames(b)| then Some(Frames(b)[i]) else None
  {
    hide BufOk, Frames, Holds, Room, Marked, Cleared, Off, ReadFrame;
    BufOkRoom(b);
    var fs := Frames(b);
    assert fs[..|fs|] == fs;
    ClearedHolds(b.img, fs, |fs|, b.off, b.info + RECORD);
    HeldReadable(WithoutGap(b).img, fs, i, outSize);
  }

  /** So is the buffer handed over after its last group has moved, for the frames before it. */
  lemma {:induction false} GroupReadable(b: Buf, i: nat, outSize: nat)
    requires BufOk(b) && GroupSafe(b) && i <= GroupStart(b)
    requires i < |Frames(b)| ==> |Frames(b)[i].data| <= outSize
    ensures GroupStart(b) < |Frames(b)| && HasSlot(WithoutGroup(b).img, i)
    ensures ReadFrame(WithoutGroup(b).img, i, outSize) == if i < GroupStart(b) then Some(Frames(b)[i]) else None
  {
    assert b.info + RECORD <= |b.img|;
    hide BufOk, GroupSafe, Frames, Holds, Marked, WithoutGroup, GroupStart, FieldAt, ReadFrame;
    GroupImage(b);
    HeldReadable(WithoutGroup(b).img, Frames(b)[..GroupStart(b)], i, outSize);
  }

  lemma {:induction false} GroupImage(b: Buf)
    requires BufOk(b) && GroupSafe(b)
    ensures 0 <= GroupStart(b) < |Frames(b)| && HasSlot(WithoutGroup(b).img, GroupStart(b))
    ensures Holds(WithoutGroup(b).img, Frames(b)[..GroupStart(b)])
    ensures !Marked(WithoutGroup(b).img, GroupStart(b))
  {
    hide BufOk, Frames, Holds, Room, Marked, Cleared, Off, GroupStart, FieldAt, MoveSafe, LiveFrames, LiveFrom, SlotHolds, KeySlot;
    BufOkRoom(b);
    GroupStartHeld(b);
    PrefixImage(b.img, Frames(b), GroupStart(b));
  }

  lemma {:induction false} PrefixImage(img: bytes, fs: seq<Frame>, k: nat)
    requires Holds(img, fs) && Room(|img|, fs) && k <= |fs|
    ensures HasSlot(img, k) && Off(fs, k) <= SlotAddr(|img|, k)
    ensures var r := Cleared(img, Off(fs, k), SlotAddr(|img|, k) + RECORD);
            Holds(r, fs[..k]) && !Marked(r, k)
  {
    TotalPrefix(fs, k);
    hide Holds, Marked, Cleared, Off;
    ClearedHolds(img, fs, k, Off(fs, k), SlotAddr(|img|, k) + RECORD);
  }
}
