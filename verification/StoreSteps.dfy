/** The steps of a recording device: writing a frame (with its two kinds of rotation),
    the file writer's turn, and the two halves of a stop. */
module StoreSteps {
  import opened Bytes
  import opened AnnexB
  import opened StoreImage
  import opened StoreDevice

  datatype Side = Ping | Pong

  datatype Dev = Dev(ping: Buf, pong: Buf, cur: Side, pending: Option<Side>, frameIndex: nat, stopping: bool)

  function Other(s: Side): Side { if s == Ping then Pong else Ping }

  function At(d: Dev, s: Side): Buf { if s == Ping then d.ping else d.pong }

  function Cur(d: Dev): Buf { At(d, d.cur) }

  function With(d: Dev, s: Side, b: Buf): Dev {
    if s == Ping then d.(ping := b) else d.(pong := b)
  }

  ghost predicate DevOk(d: Dev) {
    && |d.ping.img| == |d.pong.img| < Pow256(4)
    && RECORD <= |d.ping.img|
    && d.frameIndex < Pow256(4)
    && Cur(d).off <= Cur(d).info <= |Cur(d).img| - RECORD
    && (!d.stopping ==> BufOk(Cur(d)))
    && (d.stopping ==> d.pending == None || d.pending == Some(d.cur))
    && (!d.stopping ==> d.pending == None || d.pending == Some(Other(d.cur)))
  }

  /** A device as AddStoreDevice sets it up: two fresh allocations with arbitrary contents. */
  function NewDevice(a: bytes, b: bytes, t: nat): (d: Dev)
    requires |a| == |b| >= RECORD
  {
    Dev(Reset(Buf(a, 0, 0, 0), 0), Reset(Buf(b, 0, 0, t), t), Ping, None, 0, false)
  }

  // ------------------------------------------------------------ clearing

  function Cleared(img: bytes, lo: nat, hi: nat): (r: bytes)
    requires lo <= hi <= |img|
    ensures |r| == |img|
  {
    Put(img, lo, Zeros(hi - lo))
  }

  /** A clearing that starts above the data of the first `k` frames and ends inside slot `k`
      leaves those frames in place and slot `k` unmarked. */
  lemma {:induction false} ClearedHolds(img: bytes, fs: seq<Frame>, k: nat, lo: nat, hi: nat)
    requires Holds(img, fs) && k <= |fs|
    requires Off(fs, k) <= lo <= SlotAddr(|img|, k) < hi <= SlotAddr(|img|, k) + RECORD
    ensures Holds(Cleared(img, lo, hi), fs[..k]) && !Marked(Cleared(img, lo, hi), k)
  {
    TotalPrefix(fs, k);
    var z := Zeros(hi - lo);
    PutAgrees(img, lo, z);
    HoldsPrefix(img, fs, k);
    HoldsFrame(img, Put(img, lo, z), fs[..k], lo, hi);
    ClearedSlot(img, lo, hi, k);
  }

  lemma {:induction false} ClearedImage(img: bytes, fs: seq<Frame>, k: nat, lo: nat, hi: nat)
    requires Holds(img, fs) && k <= |fs|
    requires Off(fs, k) <= lo <= SlotAddr(|img|, k) < hi <= SlotAddr(|img|, k) + RECORD
    ensures ReadAll(Cleared(img, lo, hi)) == fs[..k]
  {
    hide Holds, Cleared, ReadAll, Marked, Off;
    ClearedHolds(img, fs, k, lo, hi);
    SelfDelimiting(Cleared(img, lo, hi), fs[..k]);
  }

  lemma {:induction false} ClearedPrefix(img: bytes, fs: seq<Frame>, k: nat)
    requires Holds(img, fs) && Room(|img|, fs) && k <= |fs|
    ensures Off(fs, k) <= SlotAddr(|img|, k)
    ensures ReadAll(Cleared(img, Off(fs, k), SlotAddr(|img|, k) + RECORD)) == fs[..k]
  {
    TotalPrefix(fs, k);
    hide ReadAll, Cleared, Holds, Off;
    ClearedImage(img, fs, k, Off(fs, k), SlotAddr(|img|, k) + RECORD);
  }

  /** One cleared byte at the front of a record is enough to unmark it. */
  lemma {:induction false} ClearedSlot(img: bytes, lo: nat, hi: nat, k: nat)
    requires lo <= hi <= |img| && HasSlot(img, k)
    requires lo <= SlotAddr(|img|, k) < hi
    ensures !Marked(Cleared(img, lo, hi), k)
  {
    var a := SlotAddr(|img|, k);
    assert Cleared(img, lo, hi)[a] == 0;
    ZeroByteUnmarked(Cleared(img, lo, hi), k);
  }

  // ------------------------------------------------------------ rotations

  predicate Full(d: Dev, size: nat) { Cur(d).info - Cur(d).off < size + RECORD }

  /** A buffer with its gap and its free slot cleared. */
  function WithoutGap(b: Buf): (r: Buf)
    requires b.off <= b.info <= |b.img| - RECORD
  {
    b.(img := Cleared(b.img, b.off, b.info + RECORD))
  }

  /** Rotation on a key frame: clear the gap and the free slot, switch buffers. */
  function RotateKey(d: Dev, now: nat): (d': Dev)
    requires |At(d, Other(d.cur)).img| >= RECORD
    requires Cur(d).off <= Cur(d).info <= |Cur(d).img| - RECORD
  {
    var fresh' := Reset(At(d, Other(d.cur)), now);
    With(With(d, d.cur, WithoutGap(Cur(d))), Other(d.cur), fresh').(cur := Other(d.cur), pending := Some(d.cur))
  }

  /** Slot of the newest key frame of the current buffer, -1 if the walk finds none. */
  function GroupStart(b: Buf): (k: int)
    requires b.info + RECORD <= |b.img|
    ensures k < 0 || HasSlot(b.img, k)
  {
    NewestKey(b.img, Count(b) - 1)
  }

  /** A key frame is found, and every access of the move stays inside the buffers. */
  predicate GroupSafe(b: Buf) {
    && b.info + RECORD <= |b.img|
    && GroupStart(b) >= 0
    && var k := GroupStart(b);
    && MoveSafe(b.img, k, 0, 0)
    && Total(LiveFrames(b.img, k)) + (LiveFrom(b.img, k) + 1) * RECORD <= |b.img|
    && OffAt(b.img, k) <= SlotAddr(|b.img|, k) + RECORD
  }

  /** The old buffer after the move: cleared from the key frame's data up to its record. */
  function WithoutGroup(b: Buf): (r: Buf)
    requires GroupSafe(b)
  {
    var k := GroupStart(b);
    b.(img := Cleared(b.img, OffAt(b.img, k), SlotAddr(|b.img|, k) + RECORD))
  }

  /** Rotation on any other frame: move the last group, clear it here, switch buffers. */
  function RotateGroup(d: Dev, now: nat): (d': Dev)
    requires |d.ping.img| == |d.pong.img| >= RECORD
    requires GroupSafe(Cur(d))
  {
    var b := Cur(d);
    var moved := Moved(b, GroupStart(b), Reset(At(d, Other(d.cur)), now));
    With(With(d, d.cur, WithoutGroup(b)), Other(d.cur), moved).(cur := Other(d.cur), pending := Some(d.cur))
  }

  lemma {:induction false} BufOkRoom(b: Buf)
    requires BufOk(b)
    ensures var fs := Frames(b);
            && Holds(b.img, fs) && Room(|b.img|, fs)
            && b.off == Off(fs, |fs|) && b.off <= b.info == SlotAddr(|b.img|, |fs|) <= |b.img| - RECORD
  {
    hide Holds;
    TotalPrefix(Frames(b), |Frames(b)|);
  }

  lemma {:induction false} GapCleared(b: Buf)
    requires BufOk(b)
    ensures ReadAll(WithoutGap(b).img) == Frames(b)
  {
    hide BufOk, Frames, Holds, Room, Off, ReadAll, Cleared;
    BufOkRoom(b);
    var fs := Frames(b);
    ClearedPrefix(b.img, fs, |fs|);
    assert fs[..|fs|] == fs;
  }

  lemma {:induction false} RotateKeyFrames(d: Dev, now: nat)
    requires DevOk(d) && !d.stopping
    ensures var d' := RotateKey(d, now);
            && ReadAll(At(d', d.cur).img) == Frames(Cur(d))
            && BufOk(Cur(d')) && Frames(Cur(d')) == []
  {
    GapCleared(Cur(d));
    ResetOk(At(d, Other(d.cur)), now);
    hide ReadAll, BufOk, Frames, WithoutGap, Reset;
  }

  lemma {:induction false} NewestKeyHeld(img: bytes, fs: seq<Frame>, j: int)
    requires Holds(img, fs) && -1 <= j < |fs|
    ensures j >= 0 ==> HasSlot(img, j)
    ensures var k := NewestKey(img, j); -1 <= k <= j && (k >= 0 ==> HasSlot(img, k) && KeySlot(img, k))
    ensures forall i :: NewestKey(img, j) < i <= j ==> HasSlot(img, i) && !KeySlot(img, i)
    decreases j
  {
    hide Holds, SlotHolds, KeySlot, Marked;
    if j >= 0 {
      SlotMarked(img, fs, j);
      NewestKeyHeld(img, fs, j - 1);
    }
  }

  lemma {:induction false} SlotMarked(img: bytes, fs: seq<Frame>, j: nat)
    requires Holds(img, fs) && j < |fs|
    ensures HasSlot(img, j) && Marked(img, j)
  {
    assert SlotHolds(img, fs, j);
  }

  lemma {:induction false} GroupStartHeld(b: Buf)
    requires BufOk(b) && GroupStart(b) >= 0
    ensures var k := GroupStart(b);
            && 0 <= k < |Frames(b)|
            && SlotHolds(b.img, Frames(b), k)
            && OffAt(b.img, k) == Off(Frames(b), k)
            && KeySlot(b.img, k)
  {
    NewestKeyHeld(b.img, Frames(b), |Frames(b)| - 1);
  }

  /** MoveFramesToNextBuf with the clearing after it splits the frame list at the newest key
      frame: the frames before it stay readable in the old buffer, and the new one begins
      with the rest. It holds nothing else if and only if the free slot was unmarked. */
  lemma {:induction false} GroupSplit(b: Buf, dst: Buf)
    requires BufOk(b) && GroupSafe(b) && |dst.img| == |b.img| < Pow256(4)
    ensures var fs, k, moved := Frames(b), GroupStart(b), Moved(b, GroupStart(b), dst);
            && 0 <= k < |fs|
            && ReadAll(WithoutGroup(b).img) == fs[..k]
            && BufOk(moved)
            && fs[k..] <= Frames(moved)
            && (Frames(moved) == fs[k..] <==> !Marked(b.img, Count(b)))
  {
    GroupStartHeld(b);
    hide *;
    GroupCleared(b);
    GroupMoved(b, dst);
  }

  lemma {:induction false} GroupCleared(b: Buf)
    requires BufOk(b) && GroupSafe(b)
    requires 0 <= GroupStart(b) < |Frames(b)|
    ensures ReadAll(WithoutGroup(b).img) == Frames(b)[..GroupStart(b)]
  {
    hide BufOk, Frames, Holds, Room, Off, OffAt, ReadAll, Cleared, SlotHolds, GroupStart, KeySlot, MoveSafe, LiveFrames;
    GroupStartHeld(b);
    BufOkRoom(b);
    ClearedPrefix(b.img, Frames(b), GroupStart(b));
  }

  lemma {:induction false} GroupMoved(b: Buf, dst: Buf)
    requires BufOk(b) && GroupSafe(b) && |dst.img| == |b.img| < Pow256(4)
    requires 0 <= GroupStart(b) < |Frames(b)|
    ensures var fs, k, moved := Frames(b), GroupStart(b), Moved(b, GroupStart(b), dst);
            && BufOk(moved)
            && fs[k..] <= Frames(moved)
            && (Frames(moved) == fs[k..] <==> !Marked(b.img, Count(b)))
  {
    var k := GroupStart(b);
    assert Count(b) == |Frames(b)|;
    MovedOk(b, k, dst);
    LiveFramesHeld(b.img, Frames(b), k);
  }

  lemma {:induction false} RotateGroupFrames(d: Dev, now: nat)
    requires DevOk(d) && !d.stopping && GroupSafe(Cur(d))
    ensures var d', fs, k := RotateGroup(d, now), Frames(Cur(d)), GroupStart(Cur(d));
            && 0 <= k < |fs|
            && ReadAll(At(d', d.cur).img) == fs[..k]
            && BufOk(Cur(d'))
            && fs[k..] <= Frames(Cur(d'))
            && (Frames(Cur(d')) == fs[k..] <==> !Marked(Cur(d).img, Count(Cur(d))))
  {
    GroupSplit(Cur(d), Reset(At(d, Other(d.cur)), now));
    hide ReadAll, BufOk, Frames, Moved, WithoutGroup, GroupStart, Marked, Reset;
  }

  // ------------------------------------------------------------ writing a frame

  predicate RotationSafe(d: Dev, mem: bytes, size: nat)
    requires size + 4 <= |mem|
  {
    && |d.ping.img| == |d.pong.img| >= RECORD
    && Cur(d).off <= Cur(d).info <= |Cur(d).img| - RECORD
    && (Full(d, size) && !KeyScan(mem, 0, size) ==> GroupSafe(Cur(d)))
  }

  /** The current buffer once a frame that does not fit has forced a rotation. */
  function MakeRoom(d: Dev, mem: bytes, size: nat, now: nat): (d': Dev)
    requires size + 4 <= |mem| && RotationSafe(d, mem, size)
  {
    if !Full(d, size) then d
    else if KeyScan(mem, 0, size) then RotateKey(d, now)
    else RotateGroup(d, now)
  }

  lemma {:induction false} NoRotation(d: Dev, mem: bytes, size: nat, now: nat)
    requires size + 4 <= |mem| && RotationSafe(d, mem, size)
    ensures !Full(d, size) ==> MakeRoom(d, mem, size, now) == d
  {
  }

  /** The first frame after a reset dates the buffer. */
  function Stamp(d: Dev, now: nat): Dev {
    if Cur(d).start == 0 then With(d, d.cur, Cur(d).(start := now)) else d
  }

  function NewFrame(d: Dev, data: bytes, ms: nat): Frame { Frame(ms, d.frameIndex, data) }

  function Store(d: Dev, data: bytes, ms: nat): (d': Dev)
    requires Fits(Cur(d), |data|)
  {
    With(d, d.cur, Append(Cur(d), NewFrame(d, data, ms))).(frameIndex := (d.frameIndex + 1) % 0x1_0000_0000)
  }

  /** What the write needs from its surroundings: readable memory behind the frame, a
      millisecond clock of 64 bits, and room in the buffer it ends up in. */
  predicate WriteSafe(d: Dev, mem: bytes, size: nat, ms: nat, now: nat) {
    && size + 4 <= |mem|
    && ms < Pow256(8)
    && RotationSafe(d, mem, size)
    && Fits(Cur(MakeRoom(d, mem, size, now)), size)
  }

  /** WriteFrameToBuf without the stop flag. */
  function WriteFrame(d: Dev, mem: bytes, size: nat, ms: nat, now: nat): (d': Dev)
    requires WriteSafe(d, mem, size, ms, now)
  {
    Store(Stamp(MakeRoom(d, mem, size, now), now), mem[..size], ms)
  }

  // ------------------------------------------------------------ the file writer

  /** A handed-over buffer becomes a file unless its first slot is unmarked. */
  function FlushedFile(d: Dev): Option<bytes> {
    if d.pending.Some? && Marked(At(d, d.pending.value).img, 0) then Some(At(d, d.pending.value).img) else None
  }

  function Flush(d: Dev): Dev { d.(pending := None) }

  // ------------------------------------------------------------ stopping

  /** How far the clearing of a stop that appends its frame reaches behind the end of the buffer:
      its length was measured before the append, so it ends `size` bytes behind the free slot. */
  function Overrun(b: Buf, size: nat): nat {
    if b.info + RECORD + size > |b.img| then b.info + RECORD + size - |b.img| else 0
  }

  /** A frame appended and the gap cleared, with the gap's size measured before the append.
      Bytes behind the end of the buffer are not part of it. */
  function AppendOverCleared(b: Buf, f: Frame): (r: Buf)
    requires Fits(b, |f.data|)
  {
    var a := Append(b, f);
    a.(img := Cleared(a.img, a.off, b.info + RECORD + |f.data| - Overrun(b, |f.data|)))
  }

  predicate StopSafe(d: Dev, mem: bytes, size: nat, ms: nat) {
    && size + 4 <= |mem|
    && ms < Pow256(8)
    && d.pending == None && !d.stopping
    && Cur(d).off <= Cur(d).info <= |Cur(d).img| - RECORD
  }

  /** WriteFrameToBuf with the stop flag, up to the hand-over: the frame of the call is stored
      only if it still fits. */
  function StopBegin(d: Dev, mem: bytes, size: nat, ms: nat): (d': Dev)
    requires StopSafe(d, mem, size, ms)
  {
    if Full(d, size) then
      With(d, d.cur, WithoutGap(Cur(d))).(pending := Some(d.cur), stopping := true)
    else
      With(d, d.cur, AppendOverCleared(Cur(d), NewFrame(d, mem[..size], ms)))
      .(pending := Some(d.cur), stopping := true, frameIndex := (d.frameIndex + 1) % 0x1_0000_0000)
  }

  /** The same with the gap measured after the append, as it is meant. */
  function MeantStopBegin(d: Dev, mem: bytes, size: nat, ms: nat): (d': Dev)
    requires StopSafe(d, mem, size, ms)
  {
    if Full(d, size) then
      With(d, d.cur, WithoutGap(Cur(d))).(pending := Some(d.cur), stopping := true)
    else
      With(d, d.cur, WithoutGap(Append(Cur(d), NewFrame(d, mem[..size], ms))))
      .(pending := Some(d.cur), stopping := true, frameIndex := (d.frameIndex + 1) % 0x1_0000_0000)
  }

  /** The rest of it, once the file has been written. */
  function StopEnd(d: Dev): (d': Dev)
    requires |Cur(d).img| >= RECORD
  {
    With(d, d.cur, Reset(Cur(d), 0)).(stopping := false)
  }
}
