/**
 The achievement engine: five categories of achievements computed from a
 contribution series. Total, consistency and streak each climb one descending
 threshold ladder, intensity climbs two independent ladders (peak day and
 average per active day), and the pattern category combines the perfect-month
 ladder with the comeback and strong-finish detectors.
 */
module Achievements {
  import opened Series
  import opened Patterns

  /** Ordered rank used only to group achievements for display. */
  datatype Tier = Bronze | Silver | Gold | Legendary

  datatype Achievement = Achievement(name: string, description: string, icon: string, tier: Tier)

  /** One rung of a ladder: the award earned when the metric reaches `threshold`. */
  datatype Rung = Rung(threshold: real, award: Achievement)

  /** Thresholds strictly decrease down the ladder. */
  ghost predicate Descending(ladder: seq<Rung>)
  {
    forall i, j :: 0 <= i < j < |ladder| ==> ladder[j].threshold < ladder[i].threshold
  }

  function Awards(ladder: seq<Rung>): set<Achievement>
  {
    set k | 0 <= k < |ladder| :: ladder[k].award
  }

  /** The if / else-if chain of the program: the award of the first rung
      whose threshold `v` meets, or nothing. */
  function Climb(ladder: seq<Rung>, v: real): (r: seq<Achievement>)
    ensures |r| <= 1
    ensures |r| == 1 ==> r[0] in Awards(ladder)
    decreases |ladder|
  {
    if |ladder| == 0 then []
    else if v >= ladder[0].threshold then [ladder[0].award]
    else
      var rest := Climb(ladder[1..], v);
      assert Awards(ladder[1..]) <= Awards(ladder) by {
        forall a | a in Awards(ladder[1..]) ensures a in Awards(ladder) {
          var k :| 0 <= k < |ladder[1..]| && ladder[1..][k].award == a;
          assert ladder[k + 1].award == a;
        }
      }
      rest
  }

  /** The ladder awards rung `k` when `k` is the first rung whose threshold is met. */
  lemma {:induction false} ClimbFirstMet(ladder: seq<Rung>, v: real, k: nat)
    requires k < |ladder| && ladder[k].threshold <= v
    requires forall j :: 0 <= j < k ==> v < ladder[j].threshold
    ensures Climb(ladder, v) == [ladder[k].award]
    decreases k
  {
    if k > 0 {
      ClimbFirstMet(ladder[1..], v, k - 1);
    }
  }

  /** The ladder awards nothing exactly when no threshold is met. */
  lemma {:induction false} ClimbNothing(ladder: seq<Rung>, v: real)
    ensures Climb(ladder, v) == [] <==> forall j :: 0 <= j < |ladder| ==> v < ladder[j].threshold
    decreases |ladder|
  {
    if |ladder| > 0 {
      ClimbNothing(ladder[1..], v);
      assert forall j :: 1 <= j < |ladder| ==> ladder[j] == ladder[1..][j - 1];
    }
  }

  /** On a descending ladder the award is that of the highest threshold met. */
  lemma {:induction false} ClimbHighestWins(ladder: seq<Rung>, v: real)
    requires Descending(ladder)
    requires Climb(ladder, v) != []
    ensures exists k :: 0 <= k < |ladder| && Climb(ladder, v) == [ladder[k].award]
                        && ladder[k].threshold <= v
                        && forall j :: 0 <= j < |ladder| && ladder[j].threshold <= v ==>
                                        ladder[j].threshold <= ladder[k].threshold
    decreases |ladder|
  {
    if v >= ladder[0].threshold {
      assert Climb(ladder, v) == [ladder[0].award];
    } else {
      var rest := ladder[1..];
      assert Descending(rest);
      ClimbHighestWins(rest, v);
      var k :| 0 <= k < |rest| && Climb(rest, v) == [rest[k].award] && rest[k].threshold <= v
        && forall j :: 0 <= j < |rest| && rest[j].threshold <= v ==> rest[j].threshold <= rest[k].threshold;
      forall j | 0 <= j < |ladder| && ladder[j].threshold <= v
        ensures ladder[j].threshold <= ladder[k + 1].threshold
      {
        assert j > 0;
        assert rest[j - 1] == ladder[j];
      }
    }
  }

  // ---------------------------------------------------------------------
  // The awards

  const CodeTitan := Achievement("Code Titan", "Made 10,000+ contributions in a year", "🏆", Legendary)
  const CodingMachine := Achievement("Coding Machine", "Made 5,000+ contributions in a year", "🥇", Gold)
  const ProlificCoder := Achievement("Prolific Coder", "Made 2,500+ contributions in a year", "🥈", Silver)
  const ActiveDeveloper := Achievement("Active Developer", "Made 1,000+ contributions in a year", "🥉", Bronze)

  const DailyGrinder := Achievement("Daily Grinder", "Active on 90%+ of tracked days", "⚡", Legendary)
  const SteadyCoder := Achievement("Steady Coder", "Active on 70%+ of tracked days", "📈", Gold)
  const RegularContributor := Achievement("Regular Contributor", "Active on 50%+ of tracked days", "📊", Silver)
  const WeekendWarrior := Achievement("Weekend Warrior", "Active on 25%+ of tracked days", "🏃", Bronze)

  const YearLongDedication := Achievement("Year-Long Dedication", "Maintained a 365+ day streak", "🔥", Legendary)
  const Centurion := Achievement("Centurion", "Maintained a 100+ day streak", "💯", Gold)
  const MonthlyMarathon := Achievement("Monthly Marathon", "Maintained a 30+ day streak", "🏁", Silver)
  const WeekWarrior := Achievement("Week Warrior", "Maintained a 7+ day streak", "📅", Bronze)

  const PowerUser := Achievement("Power User", "Made 50+ contributions in a single day", "⚡", Gold)
  const HighRoller := Achievement("High Roller", "Made 25+ contributions in a single day", "🎯", Silver)
  const BigDay := Achievement("Big Day", "Made 10+ contributions in a single day", "📈", Bronze)

  const QualityOverQuantity := Achievement("Quality over Quantity", "Average 20+ contributions per active day", "💎", Gold)
  const EfficientCoder := Achievement("Efficient Coder", "Average 10+ contributions per active day", "⚙️", Silver)

  const MarathonRunner := Achievement("Marathon Runner", "Had 3+ perfect months (30 days straight)", "🏃‍♂️", Gold)
  const PerfectMonth := Achievement("Perfect Month", "Had at least one perfect month (30 days straight)", "📅", Silver)
  const TheComeback := Achievement("The Comeback", "Returned to coding after a long break", "🔄", Bronze)
  const StrongFinish := Achievement("Strong Finish", "Ended the year with high activity", "🎯", Silver)

  // ---------------------------------------------------------------------
  // The ladders

  const TotalLadder: seq<Rung> := [
    Rung(10000.0, CodeTitan), Rung(5000.0, CodingMachine),
    Rung(2500.0, ProlificCoder), Rung(1000.0, ActiveDeveloper)]

  const ConsistencyLadder: seq<Rung> := [
    Rung(0.9, DailyGrinder), Rung(0.7, SteadyCoder),
    Rung(0.5, RegularContributor), Rung(0.25, WeekendWarrior)]

  const StreakLadder: seq<Rung> := [
    Rung(365.0, YearLongDedication), Rung(100.0, Centurion),
    Rung(30.0, MonthlyMarathon), Rung(7.0, WeekWarrior)]

  const PeakLadder: seq<Rung> := [
    Rung(50.0, PowerUser), Rung(25.0, HighRoller), Rung(10.0, BigDay)]

  const AverageLadder: seq<Rung> := [
    Rung(20.0, QualityOverQuantity), Rung(10.0, EfficientCoder)]

  const MonthsLadder: seq<Rung> := [
    Rung(3.0, MarathonRunner), Rung(1.0, PerfectMonth)]

  /** Every ladder is strictly descending, so on each of them the first rung
      met is the highest threshold met. */
  lemma LaddersDescend()
    ensures Descending(TotalLadder) && Descending(ConsistencyLadder) && Descending(StreakLadder)
    ensures Descending(PeakLadder) && Descending(AverageLadder) && Descending(MonthsLadder)
  {
  }

  // ---------------------------------------------------------------------
  // The categories

  function TotalAchievements(total: nat): (r: seq<Achievement>)
    ensures |r| <= 1
  {
    Climb(TotalLadder, total as real)
  }

  /** The share of tracked days that were active, as an f32 division. With
      no tracked days the share is 0/0, a NaN that meets no threshold, when no
      day is active either, and +inf, which meets the top threshold, when
      `active` is positive. */
  function ConsistencyAchievements(s: Counts, active: nat): (r: seq<Achievement>)
    ensures |r| <= 1
    ensures |r| == 1 ==> r[0] in Awards(ConsistencyLadder)
    ensures |s| == 0 ==> (r == [] <==> active == 0)
    ensures |s| == 0 && active > 0 ==> r == [DailyGrinder]
  {
    if |s| == 0 then (if active == 0 then [] else [ConsistencyLadder[0].award])
    else Climb(ConsistencyLadder, active as real / |s| as real)
  }

  function StreakAchievements(longest: nat): (r: seq<Achievement>)
    ensures |r| <= 1
  {
    Climb(StreakLadder, longest as real)
  }

  /** Peak-day ladder first, then the average ladder: at most one award each. */
  function IntensityAchievements(maxDay: nat, average: real): (r: seq<Achievement>)
    ensures |r| <= 2
    ensures forall a :: a in r ==> a in Awards(PeakLadder) || a in Awards(AverageLadder)
    ensures |r| == 2 ==> r[0] in Awards(PeakLadder) && r[1] in Awards(AverageLadder)
  {
    Climb(PeakLadder, maxDay as real) + Climb(AverageLadder, average)
  }

  /** Mean count over active days, 0 when no day is active. */
  function AveragePerActiveDay(s: Counts): (r: real)
    ensures r >= 0.0
    ensures ActiveDays(s) > 0 ==> r * ActiveDays(s) as real == Sum(s) as real
    ensures ActiveDays(s) == 0 ==> r == 0.0
  {
    if ActiveDays(s) > 0 then Sum(s) as real / ActiveDays(s) as real else 0.0
  }

  /** The perfect-month ladder and the two independent detectors. */
  function PatternAchievements(s: Counts): (r: seq<Achievement>)
    ensures |r| <= 3
    ensures TheComeback in r <==> HasComebackStory(s)
    ensures StrongFinish in r <==> HasStrongFinish(s)
  {
    Climb(MonthsLadder, PerfectMonths(s) as real)
      + (if HasComebackStory(s) then [TheComeback] else [])
      + (if HasStrongFinish(s) then [StrongFinish] else [])
  }

  /** All achievements of a series, category by category. */
  function CalculateAchievements(s: Counts): (r: seq<Achievement>)
    ensures |r| <= 8
  {
    TotalAchievements(Sum(s))
      + ConsistencyAchievements(s, ActiveDays(s))
      + StreakAchievements(LongestStreak(s))
      + IntensityAchievements(MaxOf(s), AveragePerActiveDay(s))
      + PatternAchievements(s)
  }

  // ---------------------------------------------------------------------
  // Properties

  /** The total ladder at and around its boundaries. */
  lemma TotalLadderBoundaries()
    ensures TotalAchievements(999) == []
    ensures TotalAchievements(1000) == [ActiveDeveloper] && ActiveDeveloper.tier == Bronze
    ensures TotalAchievements(2499) == [ActiveDeveloper]
    ensures TotalAchievements(2500) == [ProlificCoder]
    ensures TotalAchievements(5000) == [CodingMachine]
    ensures TotalAchievements(9999) == [CodingMachine]
    ensures TotalAchievements(10000) == [CodeTitan] && CodeTitan.tier == Legendary
  {
    ClimbNothing(TotalLadder, 999.0);
    ClimbFirstMet(TotalLadder, 1000.0, 3);
    ClimbFirstMet(TotalLadder, 2499.0, 3);
    ClimbFirstMet(TotalLadder, 2500.0, 2);
    ClimbFirstMet(TotalLadder, 5000.0, 1);
    ClimbFirstMet(TotalLadder, 9999.0, 1);
  }

  /** The streak ladder at its boundaries. */
  lemma StreakLadderBoundaries()
    ensures StreakAchievements(6) == []
    ensures StreakAchievements(7) == [WeekWarrior]
    ensures StreakAchievements(364) == [Centurion]
    ensures StreakAchievements(365) == [YearLongDedication] && YearLongDedication.tier == Legendary
  {
    ClimbNothing(StreakLadder, 6.0);
    ClimbFirstMet(StreakLadder, 7.0, 3);
    ClimbFirstMet(StreakLadder, 364.0, 1);
  }

  /** For a positive denominator, a ratio meets a threshold exactly when the
      numerator meets the threshold scaled by the denominator. */
  lemma RatioMeets(a: real, n: real, t: real)
    requires n > 0.0
    ensures a / n >= t <==> a >= t * n
  {
    var v := a / n;
    assert v * n == a;
    if v >= t {
      assert v * n >= t * n;
    } else {
      assert v * n < t * n;
    }
  }

  /** The consistency ladder compares the exact share of active days. */
  lemma ConsistencyLadderBands(s: Counts, active: nat)
    requires |s| > 0 && active <= |s|
    ensures 10 * active >= 9 * |s| ==> ConsistencyAchievements(s, active) == [DailyGrinder]
    ensures 4 * active < |s| ==> ConsistencyAchievements(s, active) == []
    ensures 2 * active >= |s| && 10 * active < 7 * |s| ==> ConsistencyAchievements(s, active) == [RegularContributor]
  {
    var a := active as real;
    var n := |s| as real;
    RatioMeets(a, n, 0.9);
    RatioMeets(a, n, 0.7);
    RatioMeets(a, n, 0.5);
    RatioMeets(a, n, 0.25);
    var v := a / n;
    if 10 * active >= 9 * |s| {
      ClimbFirstMet(ConsistencyLadder, v, 0);
    }
    if 4 * active < |s| {
      ClimbNothing(ConsistencyLadder, v);
    }
    if 2 * active >= |s| && 10 * active < 7 * |s| {
      ClimbFirstMet(ConsistencyLadder, v, 2);
    }
  }

  /** The pattern category of an empty series is empty. */
  lemma EmptySeriesPatterns()
    ensures PatternAchievements([]) == []
  {
    ClimbNothing(MonthsLadder, 0.0);
    ComebackIffTenReturns([]);
  }

  /** The metric categories at zero award nothing. */
  lemma ZeroMetricsEarnNothing()
    ensures TotalAchievements(0) == []
    ensures StreakAchievements(0) == []
    ensures IntensityAchievements(0, 0.0) == []
  {
    ClimbNothing(TotalLadder, 0.0);
    ClimbNothing(StreakLadder, 0.0);
    ClimbNothing(PeakLadder, 0.0);
    ClimbNothing(AverageLadder, 0.0);
  }

  /** An empty series earns nothing: every metric is zero, the average is
      guarded to zero and the consistency share is undefined. */
  lemma EmptySeriesEarnsNothing()
    ensures CalculateAchievements([]) == []
  {
    var e: Counts := [];
    assert Sum(e) == 0 && ActiveDays(e) == 0 && LongestStreak(e) == 0 && MaxOf(e) == 0;
    assert AveragePerActiveDay(e) == 0.0;
    ZeroMetricsEarnNothing();
    EmptySeriesPatterns();
  }

  /** The metrics of 400 days with one contribution each. */
  lemma FourHundredDailyMetrics()
    ensures Sum(Repeat(1, 400)) == 400 && ActiveDays(Repeat(1, 400)) == 400
    ensures LongestStreak(Repeat(1, 400)) == 400
    ensures PerfectMonths(Repeat(1, 400)) == 13
    ensures MaxOf(Repeat(1, 400)) == 1
    ensures !HasComebackStory(Repeat(1, 400))
    ensures !HasStrongFinish(Repeat(1, 400))
  {
    var s := Repeat(1, 400);
    RepeatAggregates(1, 400);
    LongestStreakOfActiveRun(1, 400);
    PerfectMonthsOfActiveRun(1, 400);
    var i :| 0 <= i < |s| && s[i] == MaxOf(s);
    ComebackIffTenReturns(s);
    forall lo, hi | 0 <= lo <= hi <= |s| && hi - lo == GapLength
      ensures !AllZero(s, lo, hi)
    {
      assert s[lo] > 0;
    }
    assert s[|s| - FinishWindow..] == Repeat(1, 60);
    RepeatAggregates(1, 60);
  }

  /** The pattern category for 400 days with one contribution each. */
  lemma FourHundredDailyPatterns()
    ensures PatternAchievements(Repeat(1, 400)) == [MarathonRunner]
  {
    FourHundredDailyMetrics();
    ClimbFirstMet(MonthsLadder, 13.0, 0);
  }

  /** The five categories for 400 days with one contribution each. */
  lemma FourHundredDailyCategories()
    ensures TotalAchievements(400) == []
    ensures ConsistencyAchievements(Repeat(1, 400), 400) == [DailyGrinder]
    ensures StreakAchievements(400) == [YearLongDedication]
    ensures IntensityAchievements(1, 1.0) == []
    ensures PatternAchievements(Repeat(1, 400)) == [MarathonRunner]
  {
    ClimbNothing(TotalLadder, 400.0);
    ClimbNothing(PeakLadder, 1.0);
    ClimbNothing(AverageLadder, 1.0);
    ClimbFirstMet(ConsistencyLadder, 1.0, 0);
    ClimbFirstMet(StreakLadder, 400.0, 0);
    FourHundredDailyPatterns();
  }

  /** A year-plus of daily activity: 400 days with one contribution each
      earns exactly Daily Grinder, Year-Long Dedication and Marathon Runner. */
  lemma FourHundredDailyDays()
    ensures CalculateAchievements(Repeat(1, 400))
      == [DailyGrinder, YearLongDedication, MarathonRunner]
  {
    FourHundredDailyMetrics();
    FourHundredDailyCategories();
    assert AveragePerActiveDay(Repeat(1, 400)) == 1.0;
  }

  // ---------------------------------------------------------------------
  // Display

  /** The colour each tier's names are printed in. */
  datatype Colour = Yellow | BrightWhite | BrightYellow | BrightMagenta

  function TierColour(t: Tier): Colour
  {
    match t
    case Bronze => Yellow
    case Silver => BrightWhite
    case Gold => BrightYellow
    case Legendary => BrightMagenta
  }

  /** Distinct tiers are printed in distinct colours. */
  lemma TierColoursDistinct(a: Tier, b: Tier)
    ensures TierColour(a) == TierColour(b) <==> a == b
  {
  }

  /** The tiers in the order the list is printed, highest first. */
  const DisplayOrder: seq<Tier> := [Legendary, Gold, Silver, Bronze]

  /** The achievements of tier `t`, in their original order. */
  function OfTier(r: seq<Achievement>, t: Tier): (g: seq<Achievement>)
    ensures |g| <= |r|
    ensures forall k :: 0 <= k < |g| ==> g[k].tier == t
    decreases |r|
  {
    if |r| == 0 then []
    else OfTier(r[..|r| - 1], t) + (if r[|r| - 1].tier == t then [r[|r| - 1]] else [])
  }

  /** The four tier groups, highest tier first, each in original order. */
  function Grouped(r: seq<Achievement>): seq<Achievement>
  {
    OfTier(r, Legendary) + OfTier(r, Gold) + OfTier(r, Silver) + OfTier(r, Bronze)
  }

  /** One more achievement joins its own tier's group only. */
  lemma OfTierSnoc(r: seq<Achievement>, a: Achievement, t: Tier)
    ensures multiset(OfTier(r + [a], t)) == multiset(OfTier(r, t)) + (if a.tier == t then multiset{a} else multiset{})
  {
    assert (r + [a])[..|r + [a]| - 1] == r;
  }

  /** Splitting one more achievement into the groups adds it to its own group. */
  lemma GroupedSnoc(r: seq<Achievement>, a: Achievement)
    ensures multiset(Grouped(r + [a])) == multiset(Grouped(r)) + multiset{a}
  {
    var l, g, s, b := OfTier(r, Legendary), OfTier(r, Gold), OfTier(r, Silver), OfTier(r, Bronze);
    var l', g', s', b' := OfTier(r + [a], Legendary), OfTier(r + [a], Gold), OfTier(r + [a], Silver), OfTier(r + [a], Bronze);
    OfTierSnoc(r, a, Legendary);
    OfTierSnoc(r, a, Gold);
    OfTierSnoc(r, a, Silver);
    OfTierSnoc(r, a, Bronze);
    assert Grouped(r) == l + g + s + b;
    assert Grouped(r + [a]) == l' + g' + s' + b';
    JoinGroups(l, g, s, b, l', g', s', b', a);
  }

  /** Adding one element to exactly one of four parts adds it to their concatenation. */
  lemma JoinGroups(l: seq<Achievement>, g: seq<Achievement>, s: seq<Achievement>, b: seq<Achievement>,
                   l': seq<Achievement>, g': seq<Achievement>, s': seq<Achievement>, b': seq<Achievement>,
                   a: Achievement)
    requires multiset(l') == multiset(l) + (if a.tier == Legendary then multiset{a} else multiset{})
    requires multiset(g') == multiset(g) + (if a.tier == Gold then multiset{a} else multiset{})
    requires multiset(s') == multiset(s) + (if a.tier == Silver then multiset{a} else multiset{})
    requires multiset(b') == multiset(b) + (if a.tier == Bronze then multiset{a} else multiset{})
    ensures multiset(l' + g' + s' + b') == multiset(l + g + s + b) + multiset{a}
  {
  }

  /** Grouping by tier is a rearrangement: every achievement appears in the
      printed list exactly as often as it was earned. */
  lemma {:induction false} GroupedIsPermutation(r: seq<Achievement>)
    ensures multiset(Grouped(r)) == multiset(r)
    ensures |Grouped(r)| == |r|
    decreases |r|
  {
    if |r| > 0 {
      var p := r[..|r| - 1];
      GroupedIsPermutation(p);
      GroupedSnoc(p, r[|r| - 1]);
      assert p + [r[|r| - 1]] == r;
    }
    assert |multiset(Grouped(r))| == |Grouped(r)|;
  }

  /** The printed list is ordered by tier, highest first. */
  lemma GroupedByTier(r: seq<Achievement>)
    ensures forall i, j :: 0 <= i < j < |Grouped(r)| ==>
      TierRank(Grouped(r)[i].tier) >= TierRank(Grouped(r)[j].tier)
  {
    var l, g, s, b := OfTier(r, Legendary), OfTier(r, Gold), OfTier(r, Silver), OfTier(r, Bronze);
    var all := Grouped(r);
    forall i | 0 <= i < |all|
      ensures TierRank(all[i].tier) == if i < |l| then 3 else if i < |l| + |g| then 2
        else if i < |l| + |g| + |s| then 1 else 0
    {
      if i < |l| {
        assert all[i] == l[i];
      } else if i < |l| + |g| {
        assert all[i] == g[i - |l|];
      } else if i < |l| + |g| + |s| {
        assert all[i] == s[i - |l| - |g|];
      } else {
        assert all[i] == b[i - |l| - |g| - |s|];
      }
    }
  }

  function TierRank(t: Tier): nat
  {
    match t
    case Bronze => 0
    case Silver => 1
    case Gold => 2
    case Legendary => 3
  }

  /** One entry of the breakdown line: a tier's name and how many it earned. */
  datatype TierCount = TierCount(tier: string, count: nat)

  function TierName(t: Tier): string
  {
    match t
    case Bronze => "Bronze"
    case Silver => "Silver"
    case Gold => "Gold"
    case Legendary => "Legendary"
  }

  /** The breakdown line: tiers with at least one achievement, highest first. */
  function Breakdown(r: seq<Achievement>): (b: seq<TierCount>)
    ensures |b| <= |DisplayOrder|
    ensures forall i, j :: 0 <= i < j < |b| ==> b[i].tier != b[j].tier
  {
    BreakdownOfDistinct(r, DisplayOrder);
    BreakdownOf(r, DisplayOrder)
  }

  function BreakdownOf(r: seq<Achievement>, tiers: seq<Tier>): (b: seq<TierCount>)
    ensures |b| <= |tiers|
    ensures forall k :: 0 <= k < |b| ==> b[k].count > 0
    decreases |tiers|
  {
    if |tiers| == 0 then []
    else
      var n := |OfTier(r, tiers[0])|;
      (if n > 0 then [TierCount(TierName(tiers[0]), n)] else []) + BreakdownOf(r, tiers[1..])
  }

  /** The names of the given tiers. */
  function TierNames(tiers: seq<Tier>): set<string>
  {
    set t | t in tiers :: TierName(t)
  }

  /** Every entry of the breakdown names one of the given tiers. */
  lemma {:induction false} BreakdownOfNames(r: seq<Achievement>, tiers: seq<Tier>)
    ensures forall k :: 0 <= k < |BreakdownOf(r, tiers)| ==> BreakdownOf(r, tiers)[k].tier in TierNames(tiers)
    decreases |tiers|
  {
    if |tiers| > 0 {
      var n := |OfTier(r, tiers[0])|;
      var head: seq<TierCount> := if n > 0 then [TierCount(TierName(tiers[0]), n)] else [];
      var rest := BreakdownOf(r, tiers[1..]);
      var b := BreakdownOf(r, tiers);
      BreakdownOfNames(r, tiers[1..]);
      assert b == head + rest;
      assert TierName(tiers[0]) in TierNames(tiers);
      assert TierNames(tiers[1..]) <= TierNames(tiers) by {
        forall x | x in TierNames(tiers[1..]) ensures x in TierNames(tiers) {
          var t :| t in tiers[1..] && TierName(t) == x;
          assert t in tiers;
        }
      }
      forall k | 0 <= k < |b|
        ensures b[k].tier in TierNames(tiers)
      {
        if k >= |head| {
          assert b[k] == rest[k - |head|];
        }
      }
    }
  }

  /** Given tiers with distinct names, no tier appears twice in the breakdown. */
  lemma {:induction false} BreakdownOfDistinct(r: seq<Achievement>, tiers: seq<Tier>)
    requires forall i, j :: 0 <= i < j < |tiers| ==> TierName(tiers[i]) != TierName(tiers[j])
    ensures forall i, j :: 0 <= i < j < |BreakdownOf(r, tiers)| ==>
      BreakdownOf(r, tiers)[i].tier != BreakdownOf(r, tiers)[j].tier
    decreases |tiers|
  {
    if |tiers| > 0 {
      var rest := BreakdownOf(r, tiers[1..]);
      BreakdownOfDistinct(r, tiers[1..]);
      BreakdownOfNames(r, tiers[1..]);
      forall x | x in TierNames(tiers[1..])
        ensures x != TierName(tiers[0])
      {
        var t :| t in tiers[1..] && TierName(t) == x;
        var m :| 0 <= m < |tiers[1..]| && tiers[1..][m] == t;
        assert tiers[m + 1] == t;
      }
    }
  }

  function CountTotal(b: seq<TierCount>): nat
    decreases |b|
  {
    if |b| == 0 then 0 else b[0].count + CountTotal(b[1..])
  }

  lemma {:induction false} CountTotalAppend(a: seq<TierCount>, b: seq<TierCount>)
    ensures CountTotal(a + b) == CountTotal(a) + CountTotal(b)
    decreases |a|
  {
    if |a| > 0 {
      assert (a + b)[1..] == a[1..] + b;
      CountTotalAppend(a[1..], b);
    } else {
      assert a + b == b;
    }
  }

  /** Leaving out empty tiers loses no achievement. */
  lemma {:induction false} BreakdownOfTotals(r: seq<Achievement>, tiers: seq<Tier>)
    ensures CountTotal(BreakdownOf(r, tiers)) == |GroupsOf(r, tiers)|
    decreases |tiers|
  {
    if |tiers| > 0 {
      var n := |OfTier(r, tiers[0])|;
      BreakdownOfTotals(r, tiers[1..]);
      CountTotalAppend(if n > 0 then [TierCount(TierName(tiers[0]), n)] else [], BreakdownOf(r, tiers[1..]));
    }
  }

  /** The breakdown counts add up to the number of achievements, so
      it lists every tier present and nothing else. */
  lemma BreakdownTotals(r: seq<Achievement>)
    ensures CountTotal(Breakdown(r)) == |r|
  {
    GroupedIsPermutation(r);
    BreakdownOfTotals(r, DisplayOrder);
    GroupsInDisplayOrder(r);
  }

  /** A printed tier section: its heading and its achievements. */
  datatype Section = Section(heading: string, entries: seq<Achievement>)

  function TierHeading(t: Tier): string
  {
    match t
    case Bronze => "BRONZE"
    case Silver => "SILVER"
    case Gold => "GOLD"
    case Legendary => "LEGENDARY"
  }

  /** Sections for the given tiers, skipping tiers with nothing earned. */
  function SectionsOf(r: seq<Achievement>, tiers: seq<Tier>): (ss: seq<Section>)
    ensures forall k :: 0 <= k < |ss| ==> ss[k].entries != []
    decreases |tiers|
  {
    if |tiers| == 0 then []
    else
      var g := OfTier(r, tiers[0]);
      (if g != [] then [Section(TierHeading(tiers[0]), g)] else []) + SectionsOf(r, tiers[1..])
  }

  /** The entries of the sections, in order. */
  function Entries(ss: seq<Section>): seq<Achievement>
    decreases |ss|
  {
    if |ss| == 0 then [] else ss[0].entries + Entries(ss[1..])
  }

  lemma {:induction false} EntriesAppend(a: seq<Section>, b: seq<Section>)
    ensures Entries(a + b) == Entries(a) + Entries(b)
    decreases |a|
  {
    if |a| > 0 {
      assert (a + b)[1..] == a[1..] + b;
      EntriesAppend(a[1..], b);
    } else {
      assert a + b == b;
    }
  }

  /** What `display_achievements` shows: nothing for no achievements,
      otherwise the tier sections, the total and the breakdown line. */
  datatype Showcase = Nothing | Showcase(sections: seq<Section>, total: nat, breakdown: seq<TierCount>)

  function DisplayAchievements(r: seq<Achievement>): Showcase
  {
    if |r| == 0 then Nothing
    else Showcase(SectionsOf(r, DisplayOrder), |r|, Breakdown(r))
  }

  /** Skipping empty tiers does not change the printed order. */
  lemma {:induction false} SectionsOfEntries(r: seq<Achievement>, tiers: seq<Tier>)
    ensures Entries(SectionsOf(r, tiers)) == GroupsOf(r, tiers)
    decreases |tiers|
  {
    if |tiers| > 0 {
      var g := OfTier(r, tiers[0]);
      var head := if g != [] then [Section(TierHeading(tiers[0]), g)] else [];
      SectionsOfEntries(r, tiers[1..]);
      EntriesAppend(head, SectionsOf(r, tiers[1..]));
      if g != [] {
        assert Entries(head) == g + Entries(head[1..]);
      }
    }
  }

  /** The groups of the given tiers, concatenated. */
  function GroupsOf(r: seq<Achievement>, tiers: seq<Tier>): seq<Achievement>
    decreases |tiers|
  {
    if |tiers| == 0 then [] else OfTier(r, tiers[0]) + GroupsOf(r, tiers[1..])
  }

  /** Concatenating the groups in display order gives the grouped list. */
  lemma GroupsInDisplayOrder(r: seq<Achievement>)
    ensures GroupsOf(r, DisplayOrder) == Grouped(r)
  {
    assert DisplayOrder[1..] == [Gold, Silver, Bronze];
    assert DisplayOrder[1..][1..] == [Silver, Bronze];
    assert DisplayOrder[1..][1..][1..] == [Bronze];
    assert GroupsOf(r, [Bronze]) == OfTier(r, Bronze);
  }

  /** The showcase lists every achievement exactly as often as it was earned,
      highest tier first, and is empty exactly when nothing was earned. */
  lemma ShowcaseComplete(r: seq<Achievement>)
    ensures DisplayAchievements(r) == Nothing <==> r == []
    ensures r != [] ==> Entries(DisplayAchievements(r).sections) == Grouped(r)
    ensures r != [] ==> multiset(Entries(DisplayAchievements(r).sections)) == multiset(r)
    ensures r != [] ==> DisplayAchievements(r).total == |r| == CountTotal(DisplayAchievements(r).breakdown)
  {
    if r != [] {
      SectionsOfEntries(r, DisplayOrder);
      GroupsInDisplayOrder(r);
      GroupedIsPermutation(r);
      BreakdownTotals(r);
    }
  }
}
