/** Byte sequences: occurrences, in-place overwrites and fixed-width integers. */
module Bytes {

  type byte = x: int | 0 <= x < 256
  type bytes = seq<byte>

  datatype Option<+T> = None | Some(value: T)

  lemma TakeSnoc<T>(s: seq<T>, n: nat)
    requires 0 < n <= |s|
    ensures s[..n] == s[..n - 1] + [s[n - 1]]
  {
  }

  lemma ConcatAssoc<T>(a: seq<T>, b: seq<T>, c: seq<T>)
    ensures a + (b + c) == a + b + c
  {
  }

  lemma OneByte(s: bytes, i: nat)
    requires i < |s|
    ensures s[i..i + 1] == [s[i]]
  {
  }

  /** `t` occurs in `s` at position `i`. */
  predicate HasAt(s: bytes, i: nat, t: bytes) {
    i + |t| <= |s| && s[i..i + |t|] == t
  }

  lemma {:induction false} HasAtConcat(s: bytes, i: nat, a: bytes, b: bytes)
    ensures HasAt(s, i, a + b) <==> HasAt(s, i, a) && HasAt(s, i + |a|, b)
  {
    if i + |a| + |b| <= |s| {
      var w := s[i..i + |a| + |b|];
      assert w[..|a|] == s[i..i + |a|];
      assert w[|a|..] == s[i + |a|..i + |a| + |b|];
      assert (a + b)[..|a|] == a && (a + b)[|a|..] == b;
      if w[..|a|] == a && w[|a|..] == b {
        assert w == w[..|a|] + w[|a|..];
      }
      assert i + |a + b| == i + |a| + |b|;
    }
  }

  lemma {:induction false} HasAtInside(s: bytes, i: nat, t: bytes)
    requires HasAt(s, i, t)
    ensures i + |t| <= |s|
  {
  }

  lemma {:induction false} HasAtByte(s: bytes, i: nat, t: bytes, k: nat)
    requires HasAt(s, i, t) && k < |t|
    ensures s[i + k] == t[k]
  {
    assert s[i..i + |t|][k] == s[i + k];
  }

  lemma {:induction false} HasAtBytes(s: bytes, i: nat, t: bytes)
    requires HasAt(s, i, t)
    ensures forall k :: 0 <= k < |t| ==> s[i + k] == t[k]
  {
    forall k | 0 <= k < |t| ensures s[i + k] == t[k] { HasAtByte(s, i, t, k); }
  }

  /** `s` with the bytes from `off` on overwritten by `t` (memcpy into a buffer). */
  function Put(s: bytes, off: nat, t: bytes): (r: bytes)
    requires off + |t| <= |s|
    ensures |r| == |s|
  {
    s[..off] + t + s[off + |t|..]
  }

  function Zeros(n: nat): (r: bytes)
    ensures |r| == n
    ensures forall i :: 0 <= i < n ==> r[i] == 0
  {
    seq(n, _ => 0)
  }

  /** The two images have equal bytes below `lo` and from `hi` on. */
  predicate AgreeOutside(s: bytes, r: bytes, lo: nat, hi: nat) {
    && |s| == |r|
    && lo <= hi <= |s|
    && s[..lo] == r[..lo]
    && s[hi..] == r[hi..]
  }

  lemma {:induction false} PutAgrees(s: bytes, off: nat, t: bytes)
    requires off + |t| <= |s|
    ensures AgreeOutside(s, Put(s, off, t), off, off + |t|)
    ensures HasAt(Put(s, off, t), off, t)
  {
  }

  lemma {:induction false} SliceSlice(s: bytes, a: nat, b: nat, o: nat, w: nat)
    requires a <= b <= |s| && a + o + w <= b
    ensures s[a..b][o..o + w] == s[a + o..a + o + w]
  {
    var m, r := s[a..b], s[a + o..a + o + w];
    forall k | 0 <= k < w ensures m[o..o + w][k] == r[k] {
      assert m[o + k] == s[a + (o + k)];
    }
  }

  lemma {:induction false} DropSlice(s: bytes, d: nat, i: nat, j: nat)
    requires d <= i <= j <= |s|
    ensures s[d..][i - d..j - d] == s[i..j]
  {
  }

  /** Occurrences that lie on one side of a changed region survive the change. */
  lemma {:induction false} HasAtAgree(s: bytes, r: bytes, lo: nat, hi: nat, i: nat, t: bytes)
    requires AgreeOutside(s, r, lo, hi)
    requires HasAt(s, i, t)
    requires i + |t| <= lo || hi <= i
    ensures HasAt(r, i, t)
  {
    if i + |t| <= lo {
      assert s[i..i + |t|] == s[..lo][i..i + |t|];
      assert r[i..i + |t|] == r[..lo][i..i + |t|];
    } else {
      DropSlice(s, hi, i, i + |t|);
      DropSlice(r, hi, i, i + |t|);
    }
  }

  // Little-endian and big-endian fixed-width integers.

  function Pow256(k: nat): (p: nat)
    ensures p >= 1
  {
    if k == 0 then 1 else 256 * Pow256(k - 1)
  }

  /** The `k` low-order bytes of `n`, least significant first. */
  function Le(n: nat, k: nat): (r: bytes)
    ensures |r| == k
  {
    if k == 0 then [] else [n % 256] + Le(n / 256, k - 1)
  }

  function FromLe(b: bytes): nat {
    if b == [] then 0 else b[0] + 256 * FromLe(b[1..])
  }

  lemma {:induction false} FromLeLe(n: nat, k: nat)
    requires n < Pow256(k)
    ensures FromLe(Le(n, k)) == n
  {
    if k > 0 {
      FromLeLe(n / 256, k - 1);
      assert Le(n, k)[1..] == Le(n / 256, k - 1);
    }
  }

  /** memcpy into a buffer. */
  method CopyInto(a: array<byte>, off: nat, t: bytes)
    requires off + |t| <= a.Length
    modifies a
    ensures a[..] == Put(old(a[..]), off, t)
  {
    forall i | 0 <= i < |t| { a[off + i] := t[i]; }
    assert a[..] == Put(old(a[..]), off, t);
  }
}
