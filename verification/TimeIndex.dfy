/** The time index over a camera's rows: the search for the row closest to a time, and the
    query for the rows of an interval. Row times are read from the table as integers. */
module TimeIndex {
  import opened Bytes

  predicate Increasing(times: seq<int>) {
    forall i, j :: 0 <= i < j < |times| ==> times[i] < times[j]
  }

  /** `r` is the first row at or after `t`, the last row if there is none. */
  predicate IsClosest(times: seq<int>, t: int, r: int) {
    && 0 <= r < |times|
    && (forall j :: 0 <= j < r ==> times[j] < t)
    && (times[r] >= t || r == |times| - 1)
  }

  lemma {:induction false} ClosestUnique(times: seq<int>, t: int, r: int, r': int)
    requires IsClosest(times, t, r) && IsClosest(times, t, r')
    ensures r == r'
  {
  }

  /** The flag the search reports: before the first row, after the last one, or between. In the
      last case the code clears its own parameter instead of the flag, so the caller's variable
      keeps the value it had. */
  function FlagFor(times: seq<int>, t: int, flag: int): int
    requires |times| > 0
  {
    if t < times[0] then -1 else if t > times[|times| - 1] then 1 else flag
  }

  /** SearchClosestTimeFromDB: -1 for an empty table. */
  method SearchClosest(times: seq<int>, t: int, flag0: int) returns (row: int, flag: int)
    ensures times == [] ==> row == -1 && flag == flag0
    ensures times != [] ==> 0 <= row < |times| && flag == FlagFor(times, t, flag0)
    ensures times != [] && t < times[0] ==> flag == -1
    ensures times != [] && times[0] <= t && t > times[|times| - 1] ==> flag == 1
    ensures times != [] && times[0] <= t <= times[|times| - 1] ==> flag == flag0
    ensures times != [] && Increasing(times) ==> IsClosest(times, t, row)
  {
    row, flag := -1, flag0;
    if |times| == 0 {
      return;
    }
    var rowStart, rowEnd := 0, |times| - 1;
    if t < times[rowStart] {
      return rowStart, -1;
    } else if t > times[rowEnd] {
      return rowEnd, 1;
    }
    while true
      invariant 0 <= rowStart <= rowEnd < |times|
      invariant times[rowStart] <= t <= times[rowEnd]
      invariant flag == flag0
      decreases rowEnd - rowStart
    {
      var average := (rowStart + rowEnd) / 2;
      if rowEnd - rowStart > 1 {
        if t < times[average] {
          rowEnd := average;
        } else if t > times[average] {
          rowStart := average;
        } else {
          return average, flag;
        }
      } else {
        if t <= times[average] {
          return rowStart, flag;
        } else {
          return rowEnd, flag;
        }
      }
    }
  }

  // ------------------------------------------------------------ rows of an interval

  /** The row loop of GetStoreInfoFromDB: rows `s` to `e`, nothing if one of them is missing. */
  method SliceRows<T>(rows: seq<T>, s: nat, e: nat) returns (r: Option<seq<T>>)
    ensures s <= e < |rows| ==> r == Some(rows[s..e + 1])
    ensures s > e ==> r == Some([])
    ensures s <= e && e >= |rows| ==> r == None
  {
    var result, cnt := [], s;
    while cnt <= e
      invariant s <= cnt && |result| == cnt - s
      invariant cnt > s ==> cnt <= |rows| && cnt <= e + 1 && result == rows[s..cnt]
      decreases e + 1 - cnt
    {
      if cnt >= |rows| {
        return None;
      }
      result := result + [rows[cnt]];
      cnt := cnt + 1;
    }
    return Some(result);
  }

  /** Outcome of QueryInfoByDate: 1 for a table without rows, -1 when nothing matches. */
  datatype Answer<T> = EmptyTable | NotFound | Found(rows: seq<T>)

  predicate Rejected(startFlag: int, endFlag: int) {
    (startFlag < 0 && endFlag < 0) || (startFlag > 0 && endFlag > 0)
  }

  /** Rows before `t`: with increasing times, exactly the first ones. */
  function Before(times: seq<int>, t: int): (n: nat)
    ensures n <= |times|
  {
    if times == [] then 0
    else if times[|times| - 1] < t then |times|
    else Before(times[..|times| - 1], t)
  }

  lemma {:induction false} BeforeMeans(times: seq<int>, t: int)
    requires Increasing(times)
    ensures forall i :: 0 <= i < |times| ==> (times[i] < t <==> i < Before(times, t))
    decreases |times|
  {
    if times != [] {
      var n := |times| - 1;
      if times[n] >= t {
        BeforeMeans(times[..n], t);
        forall i | 0 <= i < |times| ensures times[i] < t <==> i < Before(times, t) {
          if i < n { assert times[..n][i] == times[i]; }
        }
      }
    }
  }

  lemma {:induction false} BeforeIs(times: seq<int>, t: int, n: nat)
    requires Increasing(times) && n <= |times|
    requires (n > 0 ==> times[n - 1] < t) && (n < |times| ==> times[n] >= t)
    ensures Before(times, t) == n
  {
    BeforeMeans(times, t);
    var b := Before(times, t);
    assert b < |times| ==> times[b] >= t;
    assert b > 0 ==> times[b - 1] < t;
  }

  /** The rows from the first at or after `start` to the last at or before `end`, and the first
      row after `end` as well unless a row lies exactly at `end`. */
  function Interval<T>(times: seq<int>, rows: seq<T>, start: int, end: int): seq<T>
    requires |times| == |rows| && Increasing(times) && start <= end
  {
    var a, b := Before(times, start), Before(times, end + 1);
    var extra := if b < |rows| && !(b > 0 && times[b - 1] == end) then 1 else 0;
    if a <= b + extra then rows[a..b + extra] else []
  }

  lemma {:induction false} ClosestIsBefore(times: seq<int>, t: int, r: int)
    requires Increasing(times) && IsClosest(times, t, r)
    ensures r == if Before(times, t) < |times| then Before(times, t) else |times| - 1
  {
    BeforeMeans(times, t);
    var n := Before(times, t);
    if n < |times| {
      ClosestUnique(times, t, r, n);
    } else {
      ClosestUnique(times, t, r, |times| - 1);
    }
  }

  /** The slice between the two closest rows is the interval. */
  lemma {:induction false} SliceIsInterval<T>(times: seq<int>, rows: seq<T>, start: int, end: int, s: int, e: int)
    requires |times| == |rows| && Increasing(times) && start <= end
    requires IsClosest(times, start, s) && IsClosest(times, end, e)
    requires start <= times[|times| - 1] && times[0] <= end
    ensures s <= e && rows[s..e + 1] == Interval(times, rows, start, end)
  {
    ClosestIsBefore(times, start, s);
    ClosestIsBefore(times, end, e);
    BeforeMeans(times, start);
    BeforeMeans(times, end);
    var n := Before(times, end);
    if n < |times| && times[n] == end {
      BeforeIs(times, end + 1, n + 1);
    } else {
      BeforeIs(times, end + 1, n);
    }
    assert times[|times| - 1] < start <==> Before(times, start) == |times|;
  }

  /** QueryInfoByDate on the rows of one table. The flags keep the values of two variables that
      were never initialised. */
  method QueryByDate<T>(times: seq<int>, rows: seq<T>, start: int, end: int, f: int, g: int) returns (r: Answer<T>)
    requires |times| == |rows|
    ensures times == [] ==> r == EmptyTable
    ensures times != [] ==> (r == NotFound <==> Rejected(FlagFor(times, start, f), FlagFor(times, end, g)))
    ensures times != [] && r != NotFound && Increasing(times) && start <= end ==>
              r == Found(Interval(times, rows, start, end))
  {
    var s, sf := SearchClosest(times, start, f);
    var e, ef := SearchClosest(times, end, g);
    if s < 0 || e < 0 {
      return EmptyTable;
    }
    if Rejected(sf, ef) {
      return NotFound;
    }
    var slice := SliceRows(rows, s, e);
    if Increasing(times) && start <= end {
      SliceIsInterval(times, rows, start, end, s, e);
    }
    r := Found(slice.value);
  }

  /** Every row of the interval is in the answer, and beside them at most the first row after
      the end. */
  lemma {:induction false} IntervalMeans<T>(times: seq<int>, rows: seq<T>, start: int, end: int)
    requires |times| == |rows| && Increasing(times) && start <= end
    ensures var a, n := Before(times, start), |Interval(times, rows, start, end)|;
            && a + n <= |rows|
            && (n > 0 ==> Interval(times, rows, start, end) == rows[a..a + n])
            && (forall i :: 0 <= i < |rows| && start <= times[i] <= end ==> a <= i < a + n)
            && (forall i :: a <= i < a + n && !(start <= times[i] <= end) ==>
                  i == a + n - 1 && times[i] > end && forall j :: 0 <= j < i ==> times[j] <= end)
  {
    BeforeMeans(times, start);
    BeforeMeans(times, end + 1);
  }

  /** With both flags cleared, the query fails exactly when no row lies at or after the start or
      none at or before the end. */
  lemma {:induction false} IntendedRejection(times: seq<int>, start: int, end: int)
    requires times != [] && Increasing(times) && start <= end
    ensures Rejected(FlagFor(times, start, 0), FlagFor(times, end, 0)) <==>
            end < times[0] || start > times[|times| - 1]
  {
    assert |times| > 1 ==> times[0] < times[|times| - 1];
  }

  /** The uninitialised flags change the outcome exactly in these cases: both ends lie inside the
      table and the two stray values have the same sign, or only the end lies inside and its
      stray value is negative, or only the start does and its stray value is positive. */
  lemma {:induction false} StrayFlags(times: seq<int>, start: int, end: int, f: int, g: int)
    requires times != [] && Increasing(times) && start <= end
    ensures var lo, hi := times[0], times[|times| - 1];
            Rejected(FlagFor(times, start, f), FlagFor(times, end, g)) != Rejected(FlagFor(times, start, 0), FlagFor(times, end, 0)) <==>
            || (lo <= start && end <= hi && ((f < 0 && g < 0) || (f > 0 && g > 0)))
            || (start < lo && lo <= end <= hi && g < 0)
            || (lo <= start <= hi && end > hi && f > 0)
  {
    assert |times| > 1 ==> times[0] < times[|times| - 1];
  }
}
