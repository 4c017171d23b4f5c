/**
 The contribution calendar as the GitHub API returns it: weeks of days, each
 day with its count and date. The renderer and the achievement engine only
 ever see the flattened series of counts, week after week, day after day.
 */
module Calendar {
  import opened Series

  datatype ContributionDay = ContributionDay(count: nat, date: string)

  datatype Week = Week(days: seq<ContributionDay>)

  /** `totalContributions` is reported by the API alongside the weeks; the
      flattening does not consult it. */
  datatype ContributionCalendar = ContributionCalendar(totalContributions: nat, weeks: seq<Week>)

  /** The counts of one week, in day order. */
  function WeekCounts(w: Week): (r: Counts)
    ensures |r| == |w.days|
    ensures forall d :: 0 <= d < |w.days| ==> r[d] == w.days[d].count
  {
    seq(|w.days|, d requires 0 <= d < |w.days| => w.days[d].count)
  }

  /** Counts of all the weeks, concatenated in week order. */
  function FlattenWeeks(weeks: seq<Week>): Counts
    decreases |weeks|
  {
    if |weeks| == 0 then []
    else FlattenWeeks(weeks[..|weeks| - 1]) + WeekCounts(weeks[|weeks| - 1])
  }

  /** `flatten_contributions`. */
  function FlattenContributions(cal: ContributionCalendar): Counts
  {
    FlattenWeeks(cal.weeks)
  }

  /** Number of days in the weeks. */
  function DayCount(weeks: seq<Week>): nat
    decreases |weeks|
  {
    if |weeks| == 0 then 0 else DayCount(weeks[..|weeks| - 1]) + |weeks[|weeks| - 1].days|
  }

  /** Flattening keeps every day: the series has one entry per day. */
  lemma {:induction false} FlattenLength(weeks: seq<Week>)
    ensures |FlattenWeeks(weeks)| == DayCount(weeks)
    decreases |weeks|
  {
    if |weeks| > 0 {
      FlattenLength(weeks[..|weeks| - 1]);
    }
  }

  /** Flattening two runs of weeks is flattening each and concatenating. */
  lemma {:induction false} FlattenAppend(a: seq<Week>, b: seq<Week>)
    ensures FlattenWeeks(a + b) == FlattenWeeks(a) + FlattenWeeks(b)
    decreases |b|
  {
    if |b| == 0 {
      assert a + b == a;
    } else {
      var b' := b[..|b| - 1];
      assert (a + b)[..|a + b| - 1] == a + b';
      assert (a + b)[|a + b| - 1] == b[|b| - 1];
      FlattenAppend(a, b');
    }
  }

  /** The days of two runs of weeks add up. */
  lemma {:induction false} DayCountAppend(a: seq<Week>, b: seq<Week>)
    ensures DayCount(a + b) == DayCount(a) + DayCount(b)
    decreases |b|
  {
    if |b| == 0 {
      assert a + b == a;
    } else {
      var b' := b[..|b| - 1];
      assert (a + b)[..|a + b| - 1] == a + b';
      DayCountAppend(a, b');
    }
  }

  /** Day `d` of week `w` lands at the position after all days of the
      earlier weeks: the order of weeks and of days is preserved. */
  lemma {:induction false} FlattenIndex(weeks: seq<Week>, w: nat, d: nat)
    requires w < |weeks| && d < |weeks[w].days|
    ensures DayCount(weeks[..w]) + d < |FlattenWeeks(weeks)|
    ensures FlattenWeeks(weeks)[DayCount(weeks[..w]) + d] == weeks[w].days[d].count
    decreases |weeks|
  {
    var p := weeks[..|weeks| - 1];
    FlattenLength(weeks);
    FlattenLength(p);
    if w == |weeks| - 1 {
      assert weeks[..w] == p;
    } else {
      assert p[..w] == weeks[..w];
      FlattenIndex(p, w, d);
    }
  }

  /** The sum of each week's own sum. */
  function WeeklyTotals(weeks: seq<Week>): nat
    decreases |weeks|
  {
    if |weeks| == 0 then 0 else WeeklyTotals(weeks[..|weeks| - 1]) + Sum(WeekCounts(weeks[|weeks| - 1]))
  }

  /** The series sums to the total of the weeks' own sums. */
  lemma {:induction false} FlattenSum(weeks: seq<Week>)
    ensures Sum(FlattenWeeks(weeks)) == WeeklyTotals(weeks)
    decreases |weeks|
  {
    if |weeks| > 0 {
      var p := weeks[..|weeks| - 1];
      FlattenSum(p);
      SumAppend(FlattenWeeks(p), WeekCounts(weeks[|weeks| - 1]));
    }
  }

  /** No weeks, or only empty weeks, give an empty series. */
  lemma {:induction false} FlattenEmpty(weeks: seq<Week>)
    ensures FlattenWeeks(weeks) == [] <==> forall w :: 0 <= w < |weeks| ==> weeks[w].days == []
    decreases |weeks|
  {
    FlattenLength(weeks);
    if |weeks| > 0 {
      var p := weeks[..|weeks| - 1];
      FlattenEmpty(p);
      FlattenLength(p);
      assert forall w :: 0 <= w < |p| ==> p[w] == weeks[w];
    }
  }
}
