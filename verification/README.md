# GitHub Skyline in Dafny

A Dafny model of the core of GitHub Skyline. GitHub Skyline turns a year of
daily GitHub contribution counts into two things:

- a list of unlocked achievements, such as "Week Warrior" or "The Comeback";
- a terminal cityscape in braille glyphs. Each day is a building whose height
  follows the day's count. The buildings stand under a night sky with a moon
  and stars, above a band of water, and a block of statistics follows.

The model covers the following parts of the program. Each part is modelled
as pure functions, and the properties the program relies on are proved:

- the flattening of the API calendar into a series of counts;
- the aggregates over that series;
- the achievement ladders and the multi-day pattern detectors;
- the achievement showcase, which groups achievements by tier;
- the height scaler;
- the dramatic scale used by the renderer;
- the cell-by-cell building layout;
- moon selection and placement, and the star pattern;
- the ground line;
- the statistics.

Modules:

- `Series` (series.dfy): the series type and its aggregates (sum, active days, maximum).
- `Patterns` (patterns.dfy): the longest streak, the perfect-month counter, the comeback detector and the strong-finish check.
  - Each detector's single pass with mutable counters is a fold over the prefix: `Scan...` gives the counters after a prefix.
  - Each fold is tied by an induction lemma to a declarative description of what it computes.
- `Achievements` (achievements.dfy): the 21 awards, the six threshold ladders, the five categories, and the tier-grouped showcase of `display_achievements`.
- `Building` (building.dfy): `scale_height` and its helpers.
  - The floating-point transforms (square root, natural logarithm, power 1.2) are a `Curves` parameter.
  - Proofs assume only what `Sound` (and, for monotonicity, `Monotone`) states about these transforms.
- `Sky` (sky.dfy): the moon phases, the moon art, the moon placement and the deterministic star rules.
- `Skyline` (skyline.dfy): `dramatic_scale`, `get_building_part`, the row and column loops of the render, the ground line, `calculate_longest_streak` and `print_statistics`.
- `Calendar` (calendar.dfy): the API's weeks and days, and `flatten_contributions`.

Modelling choices:

- Counts are unbounded naturals and ratios are exact reals.
- The rounding to an unsigned 32-bit height is written out:
  - round half up for non-negative values;
  - 0 for non-positive values;
  - saturation at 2^32 - 1.
- The renderer shows the FIRST `min(n, 25)` days of the series.
- The number of rows comes from the tallest building of the WHOLE series, plus six.
- The water line is always drawn 25 buildings wide (99 tiles), however many days are shown.
- The comeback detector counts only the first active day after each run of at least 30 zero days, because the gap counter is reset on every active day. "The Comeback" therefore needs ten such returns. `Patterns.ComebackIffTenReturns` states this.
- Stars are placed by a fixed table of four row/column rules (`Sky.StarRules`), tried in order; the first rule that matches gives the glyph.
- Beyond the computation of achievements and heights, the model also covers, on purpose, the code that decides what is printed: `display_achievements` with `Tier::color` (grouping by tier, the breakdown line) and `print_statistics`. Their content invariants, such as every earned achievement listed exactly once and the breakdown adding up, are worth stating even though the terminal output itself is left out.

## Model

| member | source | states |
|---|---|---|
| Calendar.WeekCounts | src/api/types.rs:38-49 | a week's counts are its days' counts, one per day, in day order |
| Calendar.FlattenLength | src/api/types.rs:51-60 | the flattened series has exactly one entry per day of every week |
| Calendar.FlattenAppend | src/api/types.rs:51-60 | flattening two runs of weeks equals flattening each and concatenating |
| Calendar.DayCountAppend | src/api/types.rs:51-60 | the day counts of two runs of weeks add up |
| Calendar.FlattenIndex | src/api/types.rs:51-60 | day d of week w lands right after all days of the earlier weeks, so week order and day order are preserved |
| Calendar.FlattenSum | src/api/types.rs:51-60 | the series sums to the total of the weeks' own sums |
| Calendar.FlattenEmpty | src/api/types.rs:51-60 | the series is empty exactly when every week has no days |
| Series.ActiveDays | src/achievements.rs:38 | the number of active days never exceeds the number of days |
| Series.MaxOf | src/achievements.rs:37 | the maximum bounds every day and is attained by some day; it is 0 for an empty series |
| Series.SumAppend | src/achievements.rs:36-38 | the total and the active-day count distribute over concatenation |
| Series.RepeatAggregates | src/achievements.rs:36-38 | n days of v sum to v·n and are all active exactly when v > 0 |
| Series.SumZeroIffNoActive | src/achievements.rs:36-38 | total 0 ⇔ no active day ⇔ every day is 0 |
| Patterns.ScanStreakTrailing | src/achievements.rs:284-297 | after any prefix, the current counter is the length of the trailing active run and never exceeds the longest |
| Patterns.ScanStreakInvariant | src/achievements.rs:284-297 | the longest counter is the length of a longest all-active window, and nothing longer exists |
| Patterns.LongestStreakBounds | src/achievements.rs:284-297 | the longest streak is at most the length; it is 0 exactly when every day is 0, and exactly when no day is active |
| Patterns.LongestStreakOfActiveRun | src/achievements.rs:284-297 | n active days in a row give a streak of n |
| Patterns.ScanMonthsCountsCompletions | src/achievements.rs:299-315 | the month counter counts the days at which the trailing run reaches a positive multiple of 30; the running counter is that run modulo 30 |
| Patterns.PerfectMonthsWithinActiveDays | src/achievements.rs:299-315 | 30 times the number of perfect months, plus the unfinished run, is at most the number of active days |
| Patterns.PerfectMonthsOfActiveRun | src/achievements.rs:299-315 | n active days in a row give n div 30 perfect months, with n mod 30 days carried |
| Patterns.NinetyActiveDaysGiveThreeMonths | src/achievements.rs:299-315 | ninety active days in a row count as three perfect months |
| Patterns.ScanComebackGap | src/achievements.rs:317-337 | after any prefix, the gap counter is the length of the trailing run of zero days |
| Patterns.ScanComebackHadGap | src/achievements.rs:317-337 | the had-gap flag is set exactly when some window of 30 zero days occurred |
| Patterns.ScanComebackReturns | src/achievements.rs:317-337 | the activity counter is the number of active days that directly follow at least 30 zero days |
| Patterns.ScanComebackInvariant | src/achievements.rs:317-337 | the three comeback counters together: trailing zero run, gap flag, and number of returns |
| Patterns.ReturnsImplyGap | src/achievements.rs:317-337 | any such return implies a 30-day gap occurred |
| Patterns.ComebackIffTenReturns | src/achievements.rs:317-337 | the comeback fires exactly when there was a 30-day gap and at least ten returns, which is exactly when there are at least ten returns |
| Patterns.StrongFinishLooksAtLastSixty | src/achievements.rs:339-350 | with at least 60 days, the strong finish depends only on the last 60 days |
| Patterns.StrongFinishBoundary | src/achievements.rs:339-350 | over the last 60 days, 30 active days summing to 100 fire the check, and summing to 99 do not |
| Achievements.Climb | src/achievements.rs:64-102 | an if/else-if threshold ladder yields at most one award, drawn from that ladder |
| Achievements.ClimbFirstMet | src/achievements.rs:64-102 | the ladder yields rung k's award when k is the first rung whose threshold is met |
| Achievements.ClimbNothing | src/achievements.rs:64-102 | the ladder yields nothing exactly when every threshold exceeds the value |
| Achievements.ClimbHighestWins | src/achievements.rs:104-144 | on a descending ladder, the award is the one for the highest threshold met |
| Achievements.LaddersDescend | src/achievements.rs:64-234 | all six ladders have strictly descending thresholds |
| Achievements.TotalAchievements | src/achievements.rs:64-102 | at most one award for the yearly total |
| Achievements.StreakAchievements | src/achievements.rs:146-184 | at most one award for the longest streak |
| Achievements.TotalLadderBoundaries | src/achievements.rs:64-102 | totals 999/1000/2499/2500/5000/9999/10000 give nothing, Active Developer (Bronze), Active Developer, Prolific Coder, Coding Machine, Coding Machine, Code Titan (Legendary) |
| Achievements.StreakLadderBoundaries | src/achievements.rs:146-184 | streaks 6/7/364/365 give nothing, Week Warrior, Centurion, Year-Long Dedication (Legendary) |
| Achievements.ConsistencyAchievements | src/achievements.rs:104-144 | at most one consistency award, taken from the consistency ladder; with no tracked days the f32 rate is NaN for no active day (nothing awarded) and +inf otherwise (Daily Grinder) |
| Achievements.ConsistencyLadderBands | src/achievements.rs:104-144 | at least 90% of days active gives Daily Grinder; under 25% gives nothing; 50% up to but not including 70% gives Regular Contributor |
| Achievements.IntensityAchievements | src/achievements.rs:186-234 | at most two intensity awards; when there are two, the peak-day award comes first and the average award second |
| Achievements.AveragePerActiveDay | src/achievements.rs:40-44 | the average is non-negative, times the active days it equals the total when some day is active, and it is 0 when no day is active |
| Achievements.PatternAchievements | src/achievements.rs:236-282 | at most three pattern awards; The Comeback is listed exactly when the comeback detector fires, and Strong Finish exactly when the strong-finish check fires |
| Achievements.CalculateAchievements | src/achievements.rs:33-62 | at most eight achievements in total |
| Achievements.ZeroMetricsEarnNothing | src/achievements.rs:64-234 | a zero total, a zero streak, and a zero peak and average earn nothing |
| Achievements.EmptySeriesPatterns | src/achievements.rs:236-282 | an empty series has no perfect month, no comeback and no strong finish |
| Achievements.EmptySeriesEarnsNothing | src/achievements.rs:33-62 | an empty series earns no achievement |
| Achievements.FourHundredDailyMetrics | src/achievements.rs:284-350 | 400 days of one contribution each: total 400, 400 active days, streak 400, 13 perfect months, no comeback and no strong finish |
| Achievements.FourHundredDailyPatterns | src/achievements.rs:236-282 | 400 daily-active days earn only Marathon Runner among the pattern awards |
| Achievements.FourHundredDailyCategories | src/achievements.rs:64-282 | for 400 daily-active days: no total award, Daily Grinder, Year-Long Dedication, no intensity award, and Marathon Runner |
| Achievements.FourHundredDailyDays | src/achievements.rs:33-62 | 400 days of one contribution each earn exactly Daily Grinder, Year-Long Dedication and Marathon Runner, in that order |
| Achievements.TierColoursDistinct | src/achievements.rs:20-29 | distinct tiers print in distinct colours |
| Achievements.OfTier | src/achievements.rs:360-363 | a tier filter keeps only achievements of that tier |
| Achievements.OfTierSnoc | src/achievements.rs:360-363 | one more achievement joins only its own tier's group |
| Achievements.GroupedSnoc | src/achievements.rs:360-363 | one more achievement adds exactly one entry to the grouped list |
| Achievements.GroupedIsPermutation | src/achievements.rs:360-393 | the tier groups together are a rearrangement of the earned list: same achievements, same multiplicities |
| Achievements.GroupedByTier | src/achievements.rs:372-393 | the printed list runs Legendary, Gold, Silver, Bronze |
| Achievements.BreakdownTotals | src/achievements.rs:396-410 | the counts on the breakdown line add up to the number of achievements |
| Achievements.Breakdown | src/achievements.rs:396-401 | the breakdown line has at most four entries, and no tier appears in it twice |
| Achievements.BreakdownOfNames | src/achievements.rs:396-401 | every breakdown entry is named after one of the tiers it was built from |
| Achievements.BreakdownOfDistinct | src/achievements.rs:396-401 | tiers with distinct names give a breakdown in which no tier name repeats |
| Achievements.BreakdownOf | src/achievements.rs:396-401 | only tiers with a positive count appear in the breakdown |
| Achievements.BreakdownOfTotals | src/achievements.rs:396-410 | dropping the empty tiers loses no achievement from the breakdown counts |
| Achievements.SectionsOf | src/achievements.rs:372-391 | a tier section is printed only when the tier has achievements |
| Achievements.SectionsOfEntries | src/achievements.rs:372-391 | skipping empty tiers leaves the printed entries in tier order |
| Achievements.GroupsInDisplayOrder | src/achievements.rs:372-377 | the sections follow the order Legendary, Gold, Silver, Bronze |
| Achievements.ShowcaseComplete | src/achievements.rs:352-410 | nothing is shown exactly when nothing was earned; otherwise every achievement appears once per earning, in tier order, and the total matches the breakdown |
| Building.ToLower | src/renderer/building.rs:12 | lowercasing keeps the length and lowercases each character |
| Building.ToLowerIdempotent | src/renderer/building.rs:12 | lowercasing twice is lowercasing once |
| Building.ScaleNamesIgnoreCase | src/renderer/building.rs:12-22 | scale names are matched case-insensitively ("LINEAR", "Sqrt", "LOG"); "Exp" selects the dramatic curve |
| Building.UnknownNamesScaleDramatically | src/renderer/building.rs:20-21 | any name other than linear, sqrt or log scales exactly like "dramatic" and "exp" |
| Building.RoundToU32 | src/renderer/building.rs:24 | the result is the nearest integer, rounding halves up; non-positive values give 0; it never exceeds 2^32 - 1 |
| Building.RoundMonotone | src/renderer/building.rs:24 | rounding and converting preserve order |
| Building.RoundedFraction | src/renderer/building.rs:24 | a fraction in [0, 1] of the target rounds to at most the target |
| Building.RoundedOrdered | src/renderer/building.rs:24 | a larger fraction never rounds to a smaller height |
| Building.ScaleHeight | src/renderer/building.rs:6-33 | zero count, zero maximum or zero target give height 0; otherwise the height is at least the mode's minimum (1 for linear/sqrt/log, 2 otherwise) |
| Building.ScaleWith | src/renderer/building.rs:6-33 | per mode: the zero guard gives 0, the minimum height holds for nonzero inputs, and the height fits in 32 bits |
| Building.Raise | src/renderer/building.rs:25-31 | the raised height is the rounded height or the minimum, whichever is larger |
| Building.NonzeroCountsStandUp | src/renderer/building.rs:25-31 | a nonzero count gets at least 1 row under linear, sqrt and log, and at least 2 under any other name |
| Building.ShapeInUnit | src/renderer/building.rs:11-22 | for 0 < count ≤ max, every mode's transform (including the log ratio) lies in [0, 1] |
| Building.ShapeMonotone | src/renderer/building.rs:11-22 | with monotone curves, each mode's transform grows with the count |
| Building.ScaleHeightBounded | src/renderer/building.rs:6-33 | for counts up to the maximum, the height never exceeds max(target, minimum height) |
| Building.ScaleWithBounded | src/renderer/building.rs:24-31 | a transform in [0, 1] gives a height of at most max(target, minimum) |
| Building.ScaleWithOrdered | src/renderer/building.rs:24-31 | ordered transforms give ordered heights |
| Building.ScaleHeightMonotone | src/renderer/building.rs:6-33 | with monotone curves, a larger count never gets a lower building |
| Building.LinearPeakReachesTarget | src/renderer/building.rs:11-24 | in linear mode the busiest day reaches exactly the target height |
| Building.GetMaxHeight | src/renderer/building.rs:1-3 | the result bounds every day and is attained by some day; it is 1 for an empty series |
| Building.ComputeBuildingHeights | src/renderer/building.rs:36-41 | one height per day, each the day's scaled height |
| Building.DayHeightBounded | src/renderer/building.rs:6-33 | one day, scaled against a maximum at least its count, stays within the bound and is 0 exactly for a zero count or target |
| Building.BuildingHeightsBounded | src/renderer/building.rs:36-41 | against the series maximum, every height is within the bound, and a height is 0 exactly for a zero day or a zero target |
| Sky.MoonBands | src/renderer/sky_elements.rs:10-17 | Crescent below 500, Quarter 500–1499, Gibbous 1500–2999, Full from 3000 |
| Sky.MoonBoundaries | src/renderer/sky_elements.rs:10-17 | the phases at the band edges 0, 499, 500, 1499, 1500, 2999 and 3000 |
| Sky.MoonMonotone | src/renderer/sky_elements.rs:10-17 | more contributions never give an earlier phase |
| Sky.MoonWidth | src/renderer/sky_elements.rs:22 | the moon width is the length of the longest art line, or 0 for no lines |
| Sky.MoonPlacement | src/renderer/sky_elements.rs:23 | with more than ten spare columns the moon ends exactly five columns from the right edge; otherwise it starts at column 0 |
| Sky.FirstStar | src/renderer/sky_elements.rs:40-52 | a star shows the glyph of the first rule that matches, no earlier rule matching; a cell is clear exactly when no rule matches |
| Sky.RuleRepeats | src/renderer/sky_elements.rs:40-46 | each star rule matches again 60 rows lower and 180 columns further right |
| Sky.StarsArePeriodic | src/renderer/sky_elements.rs:40-46 | the star field repeats every 60 rows and every 180 columns |
| Sky.StarPriority | src/renderer/sky_elements.rs:40-46 | where two rules match (row 9, column 77), the earlier rule's '.' wins |
| Sky.SkyBlockLayout | src/renderer/sky_elements.rs:19-56 | one sky line per art row, each `width` cells; a cell that is not moon shows the star pattern of its row and column, and a moon cell shows a non-blank character of its art line at the column's offset from the moon's first column |
| Sky.MoonFitsInSky | src/renderer/sky_elements.rs:22-37 | when there is room, every non-blank moon character is drawn, and none lands in the last five columns |
| Skyline.DramaticScale | src/renderer/skyline.rs:31-38 | a zero count gives 0; a nonzero count over a zero maximum saturates; every result fits in 32 bits |
| Skyline.DramaticScaleRange | src/renderer/skyline.rs:31-38 | a day with 0 < count ≤ max is between 2 and 30 rows tall |
| Skyline.DramaticPeak | src/renderer/skyline.rs:31-38 | the busiest day is exactly 30 rows tall |
| Skyline.DramaticScaleMonotone | src/renderer/skyline.rs:31-38 | a busier day is never drawn lower |
| Skyline.BuildingHeights | src/renderer/skyline.rs:11-15 | one height per day |
| Skyline.BuildingHeightsRange | src/renderer/skyline.rs:11-15 | against the series' own maximum, active days are 2 to 30 rows tall and empty days are 0 |
| Skyline.AntennaLength | src/renderer/skyline.rs:57-62 | an antenna is at most five rows |
| Skyline.HeightClass | src/renderer/skyline.rs:86-104 | there are six height classes, 0 to 5 |
| Skyline.WindowRule | src/renderer/skyline.rs:82-84 | the `count * 3` term never matters: a cell is lit when count > 0 and either row mod 3 = 0, or row mod 4 = 0 on an odd count |
| Skyline.BuildingPartRegions | src/renderer/skyline.rs:56-105 | antenna cells fill exactly the rows height+1 to height+antenna and are numbered from the roof; blank above them; base exactly on row 1 of a nonzero building; roof exactly on the top row (other than row 1); windows exactly where the window rule holds inside the body; body cells use the height class |
| Skyline.EmptyDayIsBlank | src/renderer/skyline.rs:72 | a zero-height building is blank on every row |
| Skyline.PartText | src/renderer/skyline.rs:64-104 | every cell prints three characters |
| Skyline.RowTextLength | src/renderer/skyline.rs:46-51 | a row of w cells joined by spaces prints 3w + (w - 1) characters |
| Skyline.GroundMatchesRow | src/renderer/skyline.rs:119-131 | the water is exactly as wide as a full row of the same number of buildings, starts with the bright-blue shade and repeats every three tiles |
| Skyline.CalculateLongestStreak | src/renderer/skyline.rs:156-169 | the renderer's streak loop computes the same value as the achievement engine's, namely a longest all-active window |
| Skyline.Statistics | src/renderer/skyline.rs:133-154 | the average times the number of days is the total; the active percentage lies in [0, 100]; days displayed ≤ 25 and ≤ days tracked; active days ≤ days tracked; longest streak ≤ active days |
| Skyline.Mean | src/renderer/skyline.rs:135 | the mean times the day count is the total |
| Skyline.Percent | src/renderer/skyline.rs:150 | the percentage lies in [0, 100], and times the whole it is 100 times the part |
| Skyline.LongestWithinActive | src/renderer/skyline.rs:156-169 | the longest streak never exceeds the number of active days |
| Skyline.CurrentWithinActive | src/renderer/skyline.rs:156-169 | the current run never exceeds the number of active days |
| Skyline.BuildingRows | src/renderer/skyline.rs:44-53 | the building grid has max_height rows of `width` cells each |
| Skyline.RenderNoData | src/renderer/skyline.rs:6-9 | nothing is rendered exactly when the series is empty |
| Skyline.SceneShape | src/renderer/skyline.rs:5-29 | the moon follows the total; the sky has one line per art row and 4·min(n, 25) columns; there are max height + 6 rows of min(n, 25) buildings; the water is 99 tiles |
| Skyline.TopRowIsClear | src/renderer/skyline.rs:19-72 | every building, antenna included, fits under the top row, which is clear |
| Skyline.BottomRowIsBases | src/renderer/skyline.rs:74-76 | the ground row shows a base under each displayed active day and is blank under each empty day |
| Skyline.SceneHeightBound | src/renderer/skyline.rs:19 | the picture has at most 36 building rows |

## Left out

- Terminal output is not modelled: the printing, the ANSI colours and bold styles, the header, title, legend and footer banners, and the `{:>3}` padding and one-decimal formatting of the statistics. Cells and tiles are symbolic (`Part`, `Wave`, `SkyCell`, `Colour`), and only their glyphs and shades are kept.
- Floating point is not modelled. Consistency rates, averages and percentages are exact reals, so a value within f32 rounding of a threshold may compare differently in the program.
  - `sqrt`, `ln` and `powf(1.2)` are the uninterpreted `Curves`. Their properties are assumed through `Sound` and `Monotone` rather than proved.
- Building.Shape: the `den > 0.0` guard of log mode is modelled, but it cannot fail once `max > 0`.
- Skyline.DramaticPeak: it assumes `pow12(1.0) == 1.0`, which `Sound` does not state.
- Unsigned 32-bit overflow of the program's sums is not modelled. Counts and totals are unbounded, so a total above 2^32 - 1, which would panic or wrap in the program, is not represented.
- Skyline.IsWindow: `row + count * 3` is computed without 32-bit wrap-around. For counts above about 1.4 billion the program's remainder can differ.
- Building.ToLower: only ASCII letters are lowercased. This is exact for matching against "linear", "sqrt" and "log": no other character lowercases to a letter of those names. Rust's full Unicode lowercasing is not modelled.
- Skyline.GroundLine: it requires at least one column. The program always passes 25 columns, and 0 would underflow in the width computation.
- The moon art is ASCII, so its byte lengths (used for the width and the slicing) equal its character counts. The model uses character counts.
- Out of scope: the API client and its GraphQL query, the command line and interactive prompts, and the entry point. They fetch data or read input and are not part of this model.
- Themes, the "sky off" mode, the ASCII-only glyph fallback and a configurable display width do not appear in this renderer. The renderer uses fixed colours, always draws the sky and always shows at most 25 days.
- `totalContributions` of the calendar is only printed by the entry point, which is out of scope; the moon phase uses the sum of the series, as the renderer does.
