/**
 The skyline renderer: each day becomes a building whose height is the day's
 count on a dramatic power curve, drawn three glyphs wide with an antenna,
 roof, windows and base, under the night sky and over a fixed-width band of
 water, followed by a block of statistics.
 */
module Skyline {
  import opened Series
  import opened Patterns
  import opened Building
  import opened Sky

  /** At most this many days are drawn, the first ones of the series. */
  const DisplayDays: nat := 25

  /** Rows drawn above the tallest building. */
  const Headroom: nat := 6

  /** Lowest and highest dramatic heights of a day with contributions. */
  const FloorHeight: nat := 2
  const PeakHeight: nat := 30

  // ---------------------------------------------------------------------
  // Heights

  /** `dramatic_scale`: `round(28 * (count / max)^1.2 + 2)`, with no building
      for a zero count. A nonzero count over a zero maximum divides to
      infinity, which the float-to-integer cast saturates. */
  function DramaticScale(count: nat, max: nat, c: Curves): (r: nat)
    ensures count == 0 ==> r == 0
    ensures count > 0 && max == 0 ==> r == U32Max
    ensures r <= U32Max
  {
    if count == 0 then 0
    else if max == 0 then U32Max
    else RoundToU32(Times(c.pow12(count as real / max as real), PeakHeight - FloorHeight) + FloorHeight as real)
  }

  /** A day with contributions, up to the maximum, stands between 2 and 30 rows tall. */
  lemma DramaticScaleRange(count: nat, max: nat, c: Curves)
    requires Sound(c)
    requires 0 < count <= max
    ensures FloorHeight <= DramaticScale(count, max, c) <= PeakHeight
  {
    RatioInUnit(count as real, max as real);
    var f := c.pow12(count as real / max as real);
    TimesBounds(f, PeakHeight - FloorHeight);
  }

  /** The busiest day reaches the peak height when the curve fixes 1. */
  lemma DramaticPeak(max: nat, c: Curves)
    requires max > 0 && c.pow12(1.0) == 1.0
    ensures DramaticScale(max, max, c) == PeakHeight
  {
    assert max as real / max as real == 1.0;
    TimesOne(PeakHeight - FloorHeight);
  }

  /** A busier day is never drawn lower. */
  lemma DramaticScaleMonotone(a: nat, b: nat, max: nat, c: Curves)
    requires Sound(c) && Monotone(c)
    requires a <= b <= max
    ensures DramaticScale(a, max, c) <= DramaticScale(b, max, c)
  {
    if a > 0 {
      DivideMonotone(a as real, b as real, max as real);
      RatioInUnit(a as real, max as real);
      RatioInUnit(b as real, max as real);
      var fa := c.pow12(a as real / max as real);
      var fb := c.pow12(b as real / max as real);
      TimesMonotone(fa, fb, PeakHeight - FloorHeight);
      RoundMonotone(Times(fa, PeakHeight - FloorHeight) + FloorHeight as real,
                    Times(fb, PeakHeight - FloorHeight) + FloorHeight as real);
    }
  }

  /** The building height of every day, over the series maximum. */
  function BuildingHeights(s: Counts, c: Curves): (h: seq<nat>)
    ensures |h| == |s|
  {
    var max := GetMaxHeight(s);
    seq(|s|, i requires 0 <= i < |s| => DramaticScale(s[i], max, c))
  }

  /** Over the series' own maximum, every active day stands 2 to 30 rows tall
      and every empty day has height 0. */
  lemma BuildingHeightsRange(s: Counts, c: Curves)
    requires Sound(c)
    ensures forall i :: 0 <= i < |s| && s[i] > 0 ==> FloorHeight <= BuildingHeights(s, c)[i] <= PeakHeight
    ensures forall i :: 0 <= i < |s| && s[i] == 0 ==> BuildingHeights(s, c)[i] == 0
  {
    forall i | 0 <= i < |s| && s[i] > 0
      ensures FloorHeight <= BuildingHeights(s, c)[i] <= PeakHeight
    {
      DramaticScaleRange(s[i], GetMaxHeight(s), c);
    }
  }

  // ---------------------------------------------------------------------
  // One cell of a building

  /** Antenna length above a building of height `h`. */
  function AntennaLength(h: nat): (a: nat)
    ensures a <= 5
  {
    if h > 25 then 5 else if h > 18 then 3 else if h > 12 then 1 else 0
  }

  /** The six height classes, 0 (1 to 5 rows) to 5 (above 25 rows), that pick
      the colour of windows and walls. */
  function HeightClass(h: nat): (k: nat)
    ensures k <= 5
  {
    if h > 25 then 5 else if h > 20 then 4 else if h > 15 then 3
    else if h > 10 then 2 else if h > 5 then 1 else 0
  }

  /** What one three-glyph cell of the skyline shows. `Antenna(step)` is the
      `step`-th antenna segment above the roof. */
  datatype Part = Antenna(step: nat) | Blank | Base | Roof | Window(shade: nat) | Wall(shade: nat)

  /** Whether a cell of the building body is lit. The `count * 3` term never
      changes the remainder modulo 3 (see `WindowRule`). */
  predicate IsWindow(row: nat, count: nat)
  {
    count > 0 && ((row + count * 3) % 3 == 0 || (row % 4 == 0 && count % 2 == 1))
  }

  /** `get_building_part`: the cell at `row` (counted from 1 at the ground)
      of a building of height `height` for a day with `count` contributions. */
  function BuildingPart(height: nat, row: nat, count: nat): Part
  {
    var antenna := AntennaLength(height);
    if antenna > 0 && row > height && row <= height + antenna then Antenna(row - height)
    else if row > height then Blank
    else if row == 1 && height > 0 then Base
    else if row == height then Roof
    else if IsWindow(row, count) then Window(HeightClass(height))
    else Wall(HeightClass(height))
  }

  /** Lit windows depend only on the row modulo 3, or on rows divisible by 4 on odd days. */
  lemma WindowRule(row: nat, count: nat)
    ensures IsWindow(row, count) <==> count > 0 && (row % 3 == 0 || (row % 4 == 0 && count % 2 == 1))
  {
    assert (row + count * 3) % 3 == row % 3;
  }

  /** The vertical layout of one building: antenna segments right above the
      roof, clear sky above them, a base on the ground row, a roof on the top
      row, and lit or dark wall in between. */
  lemma BuildingPartRegions(height: nat, row: nat, count: nat)
    ensures BuildingPart(height, row, count).Antenna? <==>
      height < row <= height + AntennaLength(height)
    ensures BuildingPart(height, row, count).Antenna? ==>
      BuildingPart(height, row, count).step == row - height
    ensures BuildingPart(height, row, count) == Blank <==> row > height + AntennaLength(height)
    ensures BuildingPart(height, row, count) == Base <==> row == 1 && height >= 1
    ensures BuildingPart(height, row, count) == Roof <==> row == height && row != 1
    ensures BuildingPart(height, row, count).Window? <==>
      row < height && row != 1 && count > 0 && (row % 3 == 0 || (row % 4 == 0 && count % 2 == 1))
    ensures BuildingPart(height, row, count).Window? || BuildingPart(height, row, count).Wall? ==>
      BuildingPart(height, row, count).shade == HeightClass(height)
  {
    WindowRule(row, count);
  }

  /** A day without contributions leaves an empty lot on every row above the ground. */
  lemma EmptyDayIsBlank(row: nat, count: nat)
    requires row >= 1
    ensures BuildingPart(0, row, count) == Blank
  {
  }

  /** The glyphs of a cell; every cell is three characters wide. */
  function PartText(p: Part): (t: string)
    ensures |t| == 3
  {
    match p
    case Antenna(step) => if step == 1 then " ⢰ " else " ⢸ "
    case Blank => "   "
    case Base => "⣸⣸⣸"
    case Roof => "¯¯¯"
    case Window(_) => "⣾⣾⣾"
    case Wall(_) => "⣿⣿⣿"
  }

  /** One printed row: the cells' glyphs separated by single spaces. */
  function RowText(parts: seq<Part>): (t: string)
    decreases |parts|
  {
    if |parts| == 0 then ""
    else if |parts| == 1 then PartText(parts[0])
    else RowText(parts[..|parts| - 1]) + " " + PartText(parts[|parts| - 1])
  }

  /** A row of `w` cells prints `3w + (w - 1)` characters. */
  lemma {:induction false} RowTextLength(parts: seq<Part>)
    requires |parts| >= 1
    ensures |RowText(parts)| == |parts| * 3 + |parts| - 1
    decreases |parts|
  {
    if |parts| > 1 {
      RowTextLength(parts[..|parts| - 1]);
    }
  }

  // ---------------------------------------------------------------------
  // Ground

  /** The three shades of water, picked by column modulo 3; every tile is '~'. */
  datatype Wave = BrightBlue | Blue | BrightCyan

  /** `print_ground_section`: `3w + (w - 1)` water tiles. The program only
      calls it with at least one column; zero would underflow. */
  function GroundLine(width: nat): (g: seq<Wave>)
    requires width >= 1
  {
    seq(width * 3 + (width - 1), i requires 0 <= i =>
      if i % 3 == 0 then BrightBlue else if i % 3 == 1 then Blue else BrightCyan)
  }

  /** The water is exactly as wide as a full row of `width` buildings and
      repeats its shades every three columns. */
  lemma GroundMatchesRow(width: nat, parts: seq<Part>)
    requires width >= 1 && |parts| == width
    ensures |GroundLine(width)| == |RowText(parts)|
    ensures forall i :: 0 <= i < |GroundLine(width)| - 3 ==> GroundLine(width)[i + 3] == GroundLine(width)[i]
    ensures GroundLine(width)[0] == BrightBlue
  {
    RowTextLength(parts);
    forall i | 0 <= i < |GroundLine(width)| - 3
      ensures GroundLine(width)[i + 3] == GroundLine(width)[i]
    {
      assert (i + 3) % 3 == i % 3;
    }
  }

  // ---------------------------------------------------------------------
  // Statistics

  /** `calculate_longest_streak`, the renderer's own copy of the streak loop. */
  method CalculateLongestStreak(s: Counts) returns (longest: nat)
    ensures longest == LongestStreak(s)
    ensures IsLongestRun(s, longest)
  {
    longest := 0;
    var current: nat := 0;
    var i := 0;
    while i < |s|
      invariant 0 <= i <= |s|
      invariant ScanStreak(s[..i]) == StreakScan(longest, current)
    {
      assert s[..i + 1][..i] == s[..i];
      if s[i] > 0 {
        current := current + 1;
        longest := Max(longest, current);
      } else {
        current := 0;
      }
      i := i + 1;
    }
    assert s[..|s|] == s;
    ScanStreakInvariant(s);
  }

  /** The figures `print_statistics` shows. */
  datatype Stats = Stats(
    daysTracked: nat,
    daysDisplayed: nat,
    total: nat,
    average: real,
    maxDaily: nat,
    activeDays: nat,
    activePercent: real,
    longestStreak: nat)

  /** `print_statistics` for a nonempty series and its maximum. */
  function Statistics(s: Counts, maxDaily: nat): (st: Stats)
    requires |s| > 0
    ensures st.average * |s| as real == Sum(s) as real
    ensures 0.0 <= st.activePercent <= 100.0
    ensures st.daysDisplayed <= st.daysTracked && st.daysDisplayed <= DisplayDays
    ensures st.activeDays <= st.daysTracked
    ensures st.longestStreak <= st.activeDays
  {
    LongestWithinActive(s);
    var mean := Mean(Sum(s), |s|);
    var percent := Percent(ActiveDays(s), |s|);
    Stats(|s|, Min(|s|, DisplayDays), Sum(s), mean, maxDaily, ActiveDays(s), percent, LongestStreak(s))
  }

  /** The mean of `total` over `n` days: times `n` it gives back the total. */
  function Mean(total: nat, n: nat): (m: real)
    requires n > 0
    ensures m * n as real == total as real
    ensures m >= 0.0
  {
    total as real / n as real
  }

  /** `part` out of `whole` as a percentage, between 0 and 100. */
  function Percent(part: nat, whole: nat): (p: real)
    requires part <= whole && whole > 0
    ensures 0.0 <= p <= 100.0
    ensures p * whole as real == 100.0 * part as real
  {
    RatioInUnit(part as real, whole as real);
    (part as real / whole as real) * 100.0
  }

  /** A run of active days is made of active days. */
  lemma {:induction false} LongestWithinActive(s: Counts)
    ensures LongestStreak(s) <= ActiveDays(s)
    decreases |s|
  {
    if |s| > 0 {
      var p := s[..|s| - 1];
      LongestWithinActive(p);
      CurrentWithinActive(p);
    }
  }

  /** The current run is made of active days. */
  lemma {:induction false} CurrentWithinActive(s: Counts)
    ensures ScanStreak(s).current <= ActiveDays(s)
    decreases |s|
  {
    if |s| > 0 {
      CurrentWithinActive(s[..|s| - 1]);
    }
  }

  // ---------------------------------------------------------------------
  // The whole picture

  datatype Scene =
    | NoData
    | Scene(
        maxDaily: nat,
        moon: MoonType,
        sky: seq<seq<SkyCell>>,
        rows: seq<seq<Part>>,
        ground: seq<Wave>,
        stats: Stats)

  /** The grid of building cells: `maxHeight` rows, top row first, each with
      the first `width` buildings. Row `k` of the grid is skyline row
      `maxHeight - k`, so the last grid row is the ground row 1. */
  function BuildingRows(heights: seq<nat>, s: Counts, width: nat, maxHeight: nat): (g: seq<seq<Part>>)
    requires width <= |heights| && width <= |s|
    ensures |g| == maxHeight
    ensures forall k :: 0 <= k < maxHeight ==> |g[k]| == width
  {
    seq(maxHeight, k requires 0 <= k < maxHeight =>
      seq(width, i requires 0 <= i < width => BuildingPart(heights[i], maxHeight - k, s[i])))
  }

  /** Number of skyline rows: six above the tallest building of the whole series. */
  function SkylineHeight(s: Counts, c: Curves): nat
  {
    MaxOf(BuildingHeights(s, c)) + Headroom
  }

  /** The building grid of a series: its first 25 days under `SkylineHeight` rows. */
  function SkylineRows(s: Counts, c: Curves): seq<seq<Part>>
  {
    BuildingRows(BuildingHeights(s, c), s, Min(|s|, DisplayDays), SkylineHeight(s, c))
  }

  /** `render_skyline`: nothing for an empty series, otherwise the sky, the
      buildings of the first 25 days, water 25 buildings wide and the statistics. */
  function RenderSkyline(s: Counts, c: Curves): Scene
  {
    if |s| == 0 then NoData
    else
      var max := GetMaxHeight(s);
      var moon := SelectMoonType(Sum(s));
      var width := Min(|s|, DisplayDays);
      Scene(max, moon, NightSky(width * 4, moon), SkylineRows(s, c), GroundLine(DisplayDays), Statistics(s, max))
  }

  /** Only an empty series renders nothing. */
  lemma RenderNoData(s: Counts, c: Curves)
    ensures RenderSkyline(s, c) == NoData <==> |s| == 0
  {
  }

  /** The shape of the picture: the moon follows the total, the sky is four
      columns per displayed day, there are six rows above the tallest
      building, each row holds the first `min(n, 25)` days, and the water is
      99 tiles wide however many days are shown. */
  lemma SceneShape(s: Counts, c: Curves)
    requires |s| > 0
    ensures var sc := RenderSkyline(s, c);
      && sc.Scene?
      && sc.moon == SelectMoonType(Sum(s))
      && sc.maxDaily == MaxOf(s)
      && |sc.sky| == |MoonArt(sc.moon)|
      && (forall j :: 0 <= j < |sc.sky| ==> |sc.sky[j]| == 4 * Min(|s|, DisplayDays))
      && |sc.rows| == MaxOf(BuildingHeights(s, c)) + Headroom
      && (forall k :: 0 <= k < |sc.rows| ==> |sc.rows[k]| == Min(|s|, DisplayDays))
      && |sc.ground| == 99
  {
    var sc := RenderSkyline(s, c);
    SkyBlockLayout(4 * Min(|s|, DisplayDays), MoonArt(sc.moon));
  }

  /** Every displayed building, antenna included, fits under the top row,
      which is therefore clear sky. */
  lemma TopRowIsClear(s: Counts, c: Curves)
    requires |s| > 0
    ensures var rows := SkylineRows(s, c);
      forall i :: 0 <= i < |rows[0]| ==> rows[0][i] == Blank
  {
    var heights := BuildingHeights(s, c);
    var top := SkylineHeight(s, c);
    forall i | 0 <= i < Min(|s|, DisplayDays)
      ensures BuildingPart(heights[i], top, s[i]) == Blank
    {
      assert heights[i] <= MaxOf(heights);
      BuildingPartRegions(heights[i], top, s[i]);
    }
  }

  /** The bottom row shows a base under every active displayed day and an
      empty lot under every day without contributions. */
  lemma BottomRowIsBases(s: Counts, c: Curves)
    requires |s| > 0 && Sound(c)
    ensures var rows := SkylineRows(s, c);
      forall i :: 0 <= i < Min(|s|, DisplayDays) ==>
        rows[|rows| - 1][i] == if s[i] > 0 then Base else Blank
  {
    var heights := BuildingHeights(s, c);
    var top := SkylineHeight(s, c);
    BuildingHeightsRange(s, c);
    forall i | 0 <= i < Min(|s|, DisplayDays)
      ensures BuildingPart(heights[i], 1, s[i]) == if s[i] > 0 then Base else Blank
    {
      BuildingPartRegions(heights[i], 1, s[i]);
    }
    assert top - (top - 1) == 1;
  }

  /** With the series' own maximum, the tallest building is at most 30 rows,
      so the picture has at most 36 rows of buildings. */
  lemma SceneHeightBound(s: Counts, c: Curves)
    requires |s| > 0 && Sound(c)
    ensures SkylineHeight(s, c) <= PeakHeight + Headroom
  {
    var heights := BuildingHeights(s, c);
    BuildingHeightsRange(s, c);
    var k :| 0 <= k < |heights| && heights[k] == MaxOf(heights);
  }
}
