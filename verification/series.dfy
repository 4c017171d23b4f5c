/**
 Aggregates over a contribution series: an ordered sequence of daily
 contribution counts, oldest day first. Every aggregate is a fold that scans
 the series left to right, written as recursion on the prefix that drops the
 last day, so that a recursive call corresponds to one loop iteration.
 */
module Series {

  /** The series consumed by the whole pipeline. */
  type Counts = seq<nat>

  function Max(a: nat, b: nat): (m: nat)
    ensures m >= a && m >= b
    ensures m == a || m == b
  {
    if a >= b then a else b
  }

  function Min(a: nat, b: nat): (m: nat)
    ensures m <= a && m <= b
    ensures m == a || m == b
  {
    if a <= b then a else b
  }

  /** The sequence of `n` copies of `v`. */
  function Repeat(v: nat, n: nat): (r: Counts)
    ensures |r| == n
    ensures forall i :: 0 <= i < n ==> r[i] == v
  {
    seq(n, _ => v)
  }

  /** Sum of all counts. */
  function Sum(s: Counts): nat
    decreases |s|
  {
    if |s| == 0 then 0 else Sum(s[..|s| - 1]) + s[|s| - 1]
  }

  /** Number of days with a count above zero. */
  function ActiveDays(s: Counts): (r: nat)
    ensures r <= |s|
    decreases |s|
  {
    if |s| == 0 then 0
    else ActiveDays(s[..|s| - 1]) + (if s[|s| - 1] > 0 then 1 else 0)
  }

  /** The largest count, or 0 for an empty series. */
  function MaxOf(s: Counts): (r: nat)
    ensures forall i :: 0 <= i < |s| ==> s[i] <= r
    ensures |s| > 0 ==> exists i :: 0 <= i < |s| && s[i] == r
    ensures |s| == 0 ==> r == 0
    decreases |s|
  {
    if |s| == 0 then 0
    else
      var m := MaxOf(s[..|s| - 1]);
      assert forall i :: 0 <= i < |s| - 1 ==> s[i] == s[..|s| - 1][i];
      Max(m, s[|s| - 1])
  }

  /** Sum and active-day count both distribute over concatenation. */
  lemma {:induction false} SumAppend(a: Counts, b: Counts)
    ensures Sum(a + b) == Sum(a) + Sum(b)
    ensures ActiveDays(a + b) == ActiveDays(a) + ActiveDays(b)
    decreases |b|
  {
    if |b| == 0 {
      assert a + b == a;
    } else {
      var b' := b[..|b| - 1];
      assert (a + b)[..|a + b| - 1] == a + b';
      SumAppend(a, b');
    }
  }

  /** `n` copies of `v` sum to `v * n`; they are all active exactly when `v > 0`. */
  lemma {:induction false} RepeatAggregates(v: nat, n: nat)
    ensures Sum(Repeat(v, n)) == v * n
    ensures ActiveDays(Repeat(v, n)) == (if v > 0 then n else 0)
  {
    if n > 0 {
      assert Repeat(v, n)[..n - 1] == Repeat(v, n - 1);
      RepeatAggregates(v, n - 1);
    }
  }

  /** A series with no active day sums to zero, and conversely. */
  lemma {:induction false} SumZeroIffNoActive(s: Counts)
    ensures Sum(s) == 0 <==> ActiveDays(s) == 0
    ensures ActiveDays(s) == 0 <==> forall i :: 0 <= i < |s| ==> s[i] == 0
    decreases |s|
  {
    if |s| > 0 {
      var p := s[..|s| - 1];
      SumZeroIffNoActive(p);
      assert forall i :: 0 <= i < |p| ==> p[i] == s[i];
    }
  }
}
