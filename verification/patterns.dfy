/**
 Multi-day pattern detectors of the achievement engine: the longest active
 streak, the disjoint "perfect month" counter, the comeback detector and the
 strong-finish check. Each detector that the program writes as a single pass
 with mutable counters is modelled as the state reached after scanning a
 prefix (`Scan...`), and each scan is related by a lemma to a declarative
 description of what it computes.
 */
module Patterns {
  import opened Series

  /** Every day in the half-open range [lo, hi) is active. */
  ghost predicate AllActive(s: Counts, lo: int, hi: int)
    requires 0 <= lo <= hi <= |s|
  {
    forall k :: lo <= k < hi ==> s[k] > 0
  }

  /** Every day in the half-open range [lo, hi) has no contribution. */
  ghost predicate AllZero(s: Counts, lo: int, hi: int)
    requires 0 <= lo <= hi <= |s|
  {
    forall k :: lo <= k < hi ==> s[k] == 0
  }

  /** The trailing active run of `s` has length exactly `n`. */
  ghost predicate TrailingActive(s: Counts, n: nat)
  {
    n <= |s| && AllActive(s, |s| - n, |s|) && (n < |s| ==> s[|s| - n - 1] == 0)
  }

  /** The trailing run of zero days of `s` has length exactly `n`. */
  ghost predicate TrailingZeros(s: Counts, n: nat)
  {
    n <= |s| && AllZero(s, |s| - n, |s|) && (n < |s| ==> s[|s| - n - 1] > 0)
  }

  // ---------------------------------------------------------------------
  // Longest streak

  datatype StreakScan = StreakScan(longest: nat, current: nat)

  /** The (longest, current) counters after the streak loop has consumed `s`. */
  function ScanStreak(s: Counts): StreakScan
    decreases |s|
  {
    if |s| == 0 then StreakScan(0, 0)
    else
      var st := ScanStreak(s[..|s| - 1]);
      if s[|s| - 1] > 0 then StreakScan(Max(st.longest, st.current + 1), st.current + 1)
      else StreakScan(st.longest, 0)
  }

  /** Length of the longest run of consecutive active days. */
  function LongestStreak(s: Counts): nat
  {
    ScanStreak(s).longest
  }

  /** `n` is the length of a longest all-active window of `s`. */
  ghost predicate IsLongestRun(s: Counts, n: nat)
  {
    && n <= |s|
    && (exists lo, hi :: 0 <= lo <= hi <= |s| && hi - lo == n && AllActive(s, lo, hi))
    && (forall lo, hi :: 0 <= lo <= hi <= |s| && AllActive(s, lo, hi) ==> hi - lo <= n)
  }

  /** Windows that end before the last day are active in `s` exactly when
      they are active in its prefix. */
  lemma PrefixActiveWindows(s: Counts)
    requires |s| > 0
    ensures forall lo, hi :: 0 <= lo <= hi <= |s| - 1 ==>
      (AllActive(s, lo, hi) <==> AllActive(s[..|s| - 1], lo, hi))
  {
    var p := s[..|s| - 1];
    assert forall k :: 0 <= k < |p| ==> p[k] == s[k];
  }

  /** An active window that reaches the last day lies inside the trailing run. */
  lemma TrailingActiveBound(s: Counts, t: nat, lo: nat)
    requires TrailingActive(s, t)
    requires lo <= |s| && AllActive(s, lo, |s|)
    ensures |s| - lo <= t
  {
  }

  /** The streak loop keeps the length of the trailing active run in `current`. */
  lemma {:induction false} ScanStreakTrailing(s: Counts)
    ensures TrailingActive(s, ScanStreak(s).current)
    ensures ScanStreak(s).current <= ScanStreak(s).longest
    decreases |s|
  {
    var n := |s|;
    if n > 0 {
      var p := s[..n - 1];
      ScanStreakTrailing(p);
      PrefixActiveWindows(s);
      var c := ScanStreak(p).current;
      assert AllActive(p, |p| - c, |p|);
      if s[n - 1] > 0 {
        assert AllActive(s, n - (c + 1), n);
        if c + 1 < n {
          assert s[n - (c + 1) - 1] == p[|p| - c - 1];
        }
      }
    }
  }

  /** The streak loop keeps the length of a longest active window in `longest`. */
  lemma {:induction false} ScanStreakInvariant(s: Counts)
    ensures TrailingActive(s, ScanStreak(s).current)
    ensures IsLongestRun(s, ScanStreak(s).longest)
    decreases |s|
  {
    ScanStreakTrailing(s);
    var st := ScanStreak(s);
    var n := |s|;
    if n == 0 {
      assert AllActive(s, 0, 0);
    } else {
      var p := s[..n - 1];
      ScanStreakInvariant(p);
      PrefixActiveWindows(s);
      var pst := ScanStreak(p);
      var wlo, whi :| 0 <= wlo <= whi <= |p| && whi - wlo == pst.longest && AllActive(p, wlo, whi);
      if st.longest == pst.longest {
        assert AllActive(s, wlo, whi);
      } else {
        assert AllActive(s, n - st.current, n);
      }
      forall lo, hi | 0 <= lo <= hi <= n && AllActive(s, lo, hi)
        ensures hi - lo <= st.longest
      {
        if hi == n {
          TrailingActiveBound(s, st.current, lo);
        } else {
          assert AllActive(p, lo, hi);
        }
      }
    }
  }

  /** The longest streak is bounded by the series length and is zero exactly
      when no day is active. */
  lemma LongestStreakBounds(s: Counts)
    ensures LongestStreak(s) <= |s|
    ensures LongestStreak(s) == 0 <==> forall i :: 0 <= i < |s| ==> s[i] == 0
    ensures LongestStreak(s) == 0 <==> ActiveDays(s) == 0
  {
    ScanStreakInvariant(s);
    SumZeroIffNoActive(s);
    var n := LongestStreak(s);
    if exists i :: 0 <= i < |s| && s[i] > 0 {
      var i :| 0 <= i < |s| && s[i] > 0;
      assert AllActive(s, i, i + 1);
    }
    if n > 0 {
      var lo, hi :| 0 <= lo <= hi <= |s| && hi - lo == n && AllActive(s, lo, hi);
      assert s[lo] > 0;
    }
  }

  /** A series of `n` active days has a streak of `n`. */
  lemma LongestStreakOfActiveRun(v: nat, n: nat)
    requires v > 0
    ensures LongestStreak(Repeat(v, n)) == n
  {
    ScanStreakInvariant(Repeat(v, n));
    assert AllActive(Repeat(v, n), 0, n);
  }

  // ---------------------------------------------------------------------
  // Perfect months

  /** Days in one perfect month. */
  const MonthLength: nat := 30

  datatype MonthScan = MonthScan(months: nat, current: nat)

  /** The (perfect_months, current_streak) counters after the loop has
      consumed `s`; the counter resets on a zero day and after each 30th day. */
  function ScanMonths(s: Counts): MonthScan
    decreases |s|
  {
    if |s| == 0 then MonthScan(0, 0)
    else
      var st := ScanMonths(s[..|s| - 1]);
      if s[|s| - 1] > 0 then
        if st.current + 1 >= MonthLength then MonthScan(st.months + 1, 0)
        else MonthScan(st.months, st.current + 1)
      else MonthScan(st.months, 0)
  }

  function PerfectMonths(s: Counts): nat
  {
    ScanMonths(s).months
  }

  /** Length of the active run that ends on the last day of `s`. */
  function RunAtEnd(s: Counts): (r: nat)
    decreases |s|
  {
    if |s| == 0 || s[|s| - 1] == 0 then 0 else RunAtEnd(s[..|s| - 1]) + 1
  }

  /** Number of days that complete the 30th, 60th, 90th, ... day of an active run. */
  function MonthCompletions(s: Counts): nat
    decreases |s|
  {
    if |s| == 0 then 0
    else
      var run := RunAtEnd(s);
      MonthCompletions(s[..|s| - 1]) + (if run > 0 && run % MonthLength == 0 then 1 else 0)
  }

  /** The month counter is the current run modulo 30, and the month count is
      the number of days that complete a 30-day block of some run. */
  lemma {:induction false} ScanMonthsCountsCompletions(s: Counts)
    ensures ScanMonths(s).current == RunAtEnd(s) % MonthLength
    ensures ScanMonths(s).months == MonthCompletions(s)
    decreases |s|
  {
    if |s| > 0 {
      ScanMonthsCountsCompletions(s[..|s| - 1]);
    }
  }

  /** Perfect months are disjoint blocks of active days, so 30 days per month
      never exceeds the number of active days. */
  lemma {:induction false} PerfectMonthsWithinActiveDays(s: Counts)
    ensures ScanMonths(s).current < MonthLength
    ensures PerfectMonths(s) * MonthLength + ScanMonths(s).current <= ActiveDays(s)
    ensures PerfectMonths(s) * MonthLength <= ActiveDays(s)
    decreases |s|
  {
    if |s| > 0 {
      PerfectMonthsWithinActiveDays(s[..|s| - 1]);
    }
  }

  /** An unbroken active run of `n` days holds `n / 30` perfect months. */
  lemma {:induction false} PerfectMonthsOfActiveRun(v: nat, n: nat)
    requires v > 0
    ensures ScanMonths(Repeat(v, n)) == MonthScan(n / MonthLength, n % MonthLength)
  {
    if n > 0 {
      assert Repeat(v, n)[..n - 1] == Repeat(v, n - 1);
      PerfectMonthsOfActiveRun(v, n - 1);
    }
  }

  /** A 90-day unbroken run gives exactly three perfect months. */
  lemma NinetyActiveDaysGiveThreeMonths(v: nat)
    requires v > 0
    ensures PerfectMonths(Repeat(v, 90)) == 3
  {
    PerfectMonthsOfActiveRun(v, 90);
  }

  // ---------------------------------------------------------------------
  // Comeback

  /** Zero days that make a qualifying gap. */
  const GapLength: nat := 30
  /** Returns after a gap needed for the comeback achievement. */
  const ReturnsNeeded: nat := 10

  datatype ComebackScan = ComebackScan(hadGap: bool, gap: nat, recent: nat)

  /** The (had_gap, gap_size, recent_activity) variables after the loop has
      consumed `s`. Note the gap counter is reset by the first active day, so
      only that day is counted as recent activity. */
  function ScanComeback(s: Counts): ComebackScan
    decreases |s|
  {
    if |s| == 0 then ComebackScan(false, 0, 0)
    else
      var st := ScanComeback(s[..|s| - 1]);
      if s[|s| - 1] == 0 then
        ComebackScan(st.hadGap || st.gap + 1 >= GapLength, st.gap + 1, st.recent)
      else
        ComebackScan(st.hadGap, 0, if st.hadGap && st.gap >= GapLength then st.recent + 1 else st.recent)
  }

  function HasComebackStory(s: Counts): bool
  {
    var st := ScanComeback(s);
    st.hadGap && st.recent >= ReturnsNeeded
  }

  /** Some 30 consecutive days of `s` are all zero. */
  ghost predicate HasGap(s: Counts)
  {
    exists lo, hi :: 0 <= lo <= hi <= |s| && hi - lo == GapLength && AllZero(s, lo, hi)
  }

  /** Number of active days whose 30 immediately preceding days are all zero. */
  ghost function Returns(s: Counts): nat
    decreases |s|
  {
    if |s| == 0 then 0
    else
      var n := |s|;
      Returns(s[..n - 1])
        + (if s[n - 1] > 0 && n - 1 >= GapLength && AllZero(s, n - 1 - GapLength, n - 1) then 1 else 0)
  }

  /** A trailing zero run of length `g` covers the last `w` days exactly when `g >= w`. */
  lemma TrailingZerosCover(s: Counts, g: nat, w: nat)
    requires TrailingZeros(s, g)
    requires w <= |s|
    ensures AllZero(s, |s| - w, |s|) <==> g >= w
  {
    if g < w {
      assert s[|s| - g - 1] > 0;
    }
  }

  /** Windows that end before the last day see the same days in `s` and in its prefix. */
  lemma PrefixWindows(s: Counts)
    requires |s| > 0
    ensures forall lo, hi :: 0 <= lo <= hi <= |s| - 1 ==>
      (AllZero(s, lo, hi) <==> AllZero(s[..|s| - 1], lo, hi))
  {
    var p := s[..|s| - 1];
    assert forall k :: 0 <= k < |p| ==> p[k] == s[k];
  }

  /** The comeback loop keeps the length of the trailing zero run in `gap_size`. */
  lemma {:induction false} ScanComebackGap(s: Counts)
    ensures TrailingZeros(s, ScanComeback(s).gap)
    decreases |s|
  {
    var n := |s|;
    if n > 0 {
      var p := s[..n - 1];
      ScanComebackGap(p);
      var g := ScanComeback(p).gap;
      PrefixWindows(s);
      assert AllZero(p, |p| - g, |p|);
      if s[n - 1] == 0 {
        assert AllZero(s, n - (g + 1), n);
        if g + 1 < n {
          assert s[n - (g + 1) - 1] == p[|p| - g - 1];
        }
      }
    }
  }

  /** The comeback loop raises `had_gap` exactly when some 30-day gap has occurred. */
  lemma {:induction false} ScanComebackHadGap(s: Counts)
    ensures ScanComeback(s).hadGap <==> HasGap(s)
    decreases |s|
  {
    var n := |s|;
    if n > 0 {
      var p := s[..n - 1];
      ScanComebackHadGap(p);
      ScanComebackGap(s);
      PrefixWindows(s);
      var st := ScanComeback(s);
      if HasGap(p) {
        var lo, hi :| 0 <= lo <= hi <= |p| && hi - lo == GapLength && AllZero(p, lo, hi);
        assert AllZero(s, lo, hi);
      }
      if HasGap(s) {
        var lo, hi :| 0 <= lo <= hi <= n && hi - lo == GapLength && AllZero(s, lo, hi);
        if hi < n {
          assert AllZero(p, lo, hi);
        } else {
          TrailingZerosCover(s, st.gap, GapLength);
        }
      }
      if n >= GapLength {
        TrailingZerosCover(s, st.gap, GapLength);
      }
    }
  }

  /** The comeback loop counts in `recent_activity` the days that directly follow a gap. */
  lemma {:induction false} ScanComebackReturns(s: Counts)
    ensures ScanComeback(s).recent == Returns(s)
    decreases |s|
  {
    var n := |s|;
    if n > 0 {
      var p := s[..n - 1];
      ScanComebackReturns(p);
      ScanComebackGap(p);
      ScanComebackHadGap(p);
      PrefixWindows(s);
      var pst := ScanComeback(p);
      if n - 1 >= GapLength {
        TrailingZerosCover(p, pst.gap, GapLength);
        if pst.gap >= GapLength {
          assert AllZero(p, |p| - GapLength, |p|);
        }
      } else {
        assert pst.gap <= |p|;
      }
    }
  }

  /** The three counters of the comeback loop, described declaratively. */
  lemma ScanComebackInvariant(s: Counts)
    ensures TrailingZeros(s, ScanComeback(s).gap)
    ensures ScanComeback(s).hadGap <==> HasGap(s)
    ensures ScanComeback(s).recent == Returns(s)
  {
    ScanComebackGap(s);
    ScanComebackHadGap(s);
    ScanComebackReturns(s);
  }

  /** A day counted as a return follows a gap, so a return implies a gap. */
  lemma {:induction false} ReturnsImplyGap(s: Counts)
    ensures Returns(s) > 0 ==> HasGap(s)
    decreases |s|
  {
    var n := |s|;
    if n > 0 && Returns(s) > 0 {
      var p := s[..n - 1];
      assert forall k :: 0 <= k < |p| ==> p[k] == s[k];
      if Returns(p) > 0 {
        ReturnsImplyGap(p);
        var lo, hi :| 0 <= lo <= hi <= |p| && hi - lo == GapLength && AllZero(p, lo, hi);
        assert AllZero(s, lo, hi);
      } else {
        assert AllZero(s, n - 1 - GapLength, n - 1);
      }
    }
  }

  /** The comeback fires exactly when at least ten active days each directly
      follow 30 or more zero days. */
  lemma ComebackIffTenReturns(s: Counts)
    ensures HasComebackStory(s) <==> HasGap(s) && Returns(s) >= ReturnsNeeded
    ensures HasComebackStory(s) <==> Returns(s) >= ReturnsNeeded
    ensures !HasGap(s) ==> !HasComebackStory(s)
  {
    ScanComebackInvariant(s);
    ReturnsImplyGap(s);
  }

  // ---------------------------------------------------------------------
  // Strong finish

  /** Days examined at the end of the series. */
  const FinishWindow: nat := 60

  function HasStrongFinish(s: Counts): bool
  {
    if |s| < FinishWindow then false
    else
      var last := s[|s| - FinishWindow..];
      Sum(last) >= 100 && ActiveDays(last) >= 30
  }

  /** Only the last 60 days matter: any history before them is irrelevant. */
  lemma StrongFinishLooksAtLastSixty(history: Counts, recent: Counts)
    requires |recent| >= FinishWindow
    ensures HasStrongFinish(history + recent) == HasStrongFinish(recent)
  {
    var s := history + recent;
    assert s[|s| - FinishWindow..] == recent[|recent| - FinishWindow..];
  }

  /** Ten days of 4 and twenty of 3 (sum 100, 30 active) followed by thirty
      quiet days fire the check; nine of 4 and twenty-one of 3 (sum 99) do not. */
  lemma StrongFinishBoundary(history: Counts)
    ensures HasStrongFinish(history + (Repeat(4, 10) + Repeat(3, 20) + Repeat(0, 30)))
    ensures !HasStrongFinish(history + (Repeat(4, 9) + Repeat(3, 21) + Repeat(0, 30)))
  {
    var hit := Repeat(4, 10) + Repeat(3, 20) + Repeat(0, 30);
    var miss := Repeat(4, 9) + Repeat(3, 21) + Repeat(0, 30);
    RepeatAggregates(4, 10);
    RepeatAggregates(3, 20);
    RepeatAggregates(0, 30);
    RepeatAggregates(4, 9);
    RepeatAggregates(3, 21);
    SumAppend(Repeat(4, 10), Repeat(3, 20));
    SumAppend(Repeat(4, 10) + Repeat(3, 20), Repeat(0, 30));
    SumAppend(Repeat(4, 9), Repeat(3, 21));
    SumAppend(Repeat(4, 9) + Repeat(3, 21), Repeat(0, 30));
    assert hit[|hit| - FinishWindow..] == hit;
    assert miss[|miss| - FinishWindow..] == miss;
    StrongFinishLooksAtLastSixty(history, hit);
    StrongFinishLooksAtLastSixty(history, miss);
  }
}
