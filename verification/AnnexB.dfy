/** The H.264 byte-stream format (Annex B): start codes, the recorder's key-frame
    test and the split into NAL units. `mem` is the memory behind a frame's address:
    the scanners look up to four bytes past the end of the frame. */
module AnnexB {
  import opened Bytes

  const NAL_IDR: int := 5
  const NAL_SPS: int := 7
  const NAL_PPS: int := 8

  const CODE3: bytes := [0, 0, 1]
  const CODE4: bytes := [0, 0, 0, 1]

  /** Length of the start code at `i`, zero if there is none. */
  function CodeLen(mem: bytes, i: nat): (n: nat)
    requires i + 4 <= |mem|
    ensures n == 0 || n == 3 || n == 4
  {
    if mem[i] == 0 && mem[i + 1] == 0 && mem[i + 2] == 0 && mem[i + 3] == 1 then 4
    else if mem[i] == 0 && mem[i + 1] == 0 && mem[i + 2] == 1 then 3
    else 0
  }

  lemma {:induction false} CodeLenMeans(mem: bytes, i: nat)
    requires i + 4 <= |mem|
    ensures CodeLen(mem, i) == 4 <==> HasAt(mem, i, CODE4)
    ensures CodeLen(mem, i) == 3 <==> HasAt(mem, i, CODE3)
  {
    assert mem[i..i + 4] == [mem[i], mem[i + 1], mem[i + 2], mem[i + 3]];
    assert mem[i..i + 3] == [mem[i], mem[i + 1], mem[i + 2]];
  }

  function NalType(header: byte): int { header % 32 }

  /** The first byte of a unit by section 7.3.1 of ITU-T H.264: the forbidden bit, two bits of reference
      importance and five bits of type. */
  predicate HeaderFields(header: byte, forbidden: nat, ref: nat, t: int) {
    forbidden < 2 && ref < 4 && 0 <= t < 32 && header == 128 * forbidden + 32 * ref + t
  }

  ghost predicate HasType(header: byte, t: int) { exists f: nat, r: nat :: HeaderFields(header, f, r, t) }

  /** The type read from a header is the one its syntax gives, whatever the other bits are. */
  lemma {:induction false} TypeMeans(header: byte, t: int)
    ensures HasType(header, t) <==> NalType(header) == t
  {
    if NalType(header) == t {
      assert HeaderFields(header, header / 128, header / 32 % 4, t);
    }
  }

  // ---------------------------------------------------------------- key frames

  /** What the recorder's scan of `mem[pos..end]` finds: the header after some
      start code it stops at has type 5. */
  predicate KeyScan(mem: bytes, pos: nat, end: nat)
    requires end + 4 <= |mem|
    decreases end + 5 - pos
  {
    if pos >= end then false
    else if CodeLen(mem, pos) == 0 then KeyScan(mem, pos + 1, end)
    else NalType(mem[pos + CodeLen(mem, pos)]) == NAL_IDR || KeyScan(mem, pos + CodeLen(mem, pos) + 1, end)
  }

  /** src/common.cpp ParseKeyFrame: zero is modelled as true. Falling off the end of
      the loop is modelled as the non-zero result. */
  method ParseKeyFrame(mem: array<byte>, start: nat, size: nat) returns (isKey: bool)
    requires start + size + 4 <= mem.Length
    ensures isKey == KeyScan(mem[..], start, start + size)
  {
    var data, total := start, 0;
    while total < size
      invariant data == start + total
      invariant KeyScan(mem[..], start, start + size) == KeyScan(mem[..], data, start + size)
      decreases size + 5 - total
    {
      ghost var n := CodeLen(mem[..], data);
      var four := mem[data] == 0 && mem[data + 1] == 0 && mem[data + 2] == 0 && mem[data + 3] == 1;
      var three := mem[data] == 0 && mem[data + 1] == 0 && mem[data + 2] == 1;
      if !four && !three {
        data, total := data + 1, total + 1;
        continue;
      }
      var off := if three then 3 else 4;
      if NalType(mem[data + off]) == NAL_IDR {
        return true;
      }
      data, total := data + off + 1, total + off + 1;
    }
    return false;
  }

  /** A frame that the scan cannot read across the end of: its last byte is not zero
      and it does not end in a bare start code. */
  predicate Delimited(frame: bytes) {
    && |frame| > 0
    && frame[|frame| - 1] != 0
    && !(|frame| >= 3 && HasAt(frame, |frame| - 3, CODE3))
  }

  /** The key-frame test of a delimited frame, with nothing assumed behind it. */
  predicate IsKeyFrame(frame: bytes) {
    KeyScan(frame + Zeros(4), 0, |frame|)
  }

  lemma {:induction false} CodeAtIsLocal(mem: bytes, mem': bytes, base: nat, base': nat, frame: bytes, i: nat)
    requires HasAt(mem, base, frame) && HasAt(mem', base', frame)
    requires base + |frame| + 4 <= |mem| && base' + |frame| + 4 <= |mem'|
    requires Delimited(frame) && i < |frame|
    ensures CodeLen(mem, base + i) == CodeLen(mem', base' + i)
    ensures CodeLen(mem, base + i) > 0 ==> i + CodeLen(mem, base + i) < |frame|
  {
    hide HasAt;
    var f := frame;
    EndsOpen(f);
    NextBytes(mem, base, f, i);
    NextBytes(mem', base', f, i);
  }

  lemma {:induction false} NextBytes(mem: bytes, base: nat, f: bytes, i: nat)
    requires HasAt(mem, base, f) && i < |f|
    ensures base + |f| <= |mem| && mem[base + i] == f[i]
    ensures i + 1 < |f| ==> mem[base + i + 1] == f[i + 1]
    ensures i + 2 < |f| ==> mem[base + i + 2] == f[i + 2]
    ensures i + 3 < |f| ==> mem[base + i + 3] == f[i + 3]
  {
  }

  lemma {:induction false} EndsOpen(f: bytes)
    requires Delimited(f)
    ensures |f| >= 3 ==> !(f[|f| - 3] == 0 && f[|f| - 2] == 0 && f[|f| - 1] == 1)
  {
    if |f| >= 3 { assert f[|f| - 3..] == [f[|f| - 3], f[|f| - 2], f[|f| - 1]]; }
  }

  /** The test of a delimited frame does not depend on where the frame is stored or
      on what follows it. */
  lemma {:induction false} KeyScanIsLocal(mem: bytes, mem': bytes, base: nat, base': nat, frame: bytes, i: nat)
    requires HasAt(mem, base, frame) && HasAt(mem', base', frame)
    requires base + |frame| + 4 <= |mem| && base' + |frame| + 4 <= |mem'|
    requires Delimited(frame)
    ensures KeyScan(mem, base + i, base + |frame|) == KeyScan(mem', base' + i, base' + |frame|)
    decreases |frame| + 5 - i
  {
    hide CodeLen, HasAt, Delimited;
    if i < |frame| {
      CodeAtIsLocal(mem, mem', base, base', frame, i);
      var n := CodeLen(mem, base + i);
      if n == 0 {
        KeyScanIsLocal(mem, mem', base, base', frame, i + 1);
      } else {
        HasAtByte(mem, base, frame, i + n);
        HasAtByte(mem', base', frame, i + n);
        KeyScanIsLocal(mem, mem', base, base', frame, i + n + 1);
      }
    }
  }

  lemma {:induction false} KeyScanStored(mem: bytes, base: nat, frame: bytes)
    requires HasAt(mem, base, frame) && base + |frame| + 4 <= |mem|
    requires Delimited(frame)
    ensures KeyScan(mem, base, base + |frame|) == IsKeyFrame(frame)
  {
    var padded := frame + Zeros(4);
    assert padded[0..|frame|] == frame;
    KeyScanIsLocal(mem, padded, base, 0, frame, 0);
  }
}
