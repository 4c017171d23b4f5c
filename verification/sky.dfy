/**
 The night sky drawn above the skyline: a moon whose phase depends on the
 total number of contributions, placed near the right edge, and a fixed,
 deterministic star pattern that depends only on the row and column.
 */
module Sky {

  datatype MoonType = Crescent | Quarter | Gibbous | Full

  /** Position of a phase in the order Crescent, Quarter, Gibbous, Full. */
  function PhaseRank(m: MoonType): nat
  {
    match m
    case Crescent => 0
    case Quarter => 1
    case Gibbous => 2
    case Full => 3
  }

  /** `select_moon_type`: the phase for a total number of contributions. */
  function SelectMoonType(total: nat): MoonType
  {
    if total <= 499 then Crescent
    else if total <= 1499 then Quarter
    else if total <= 2999 then Gibbous
    else Full
  }

  /** Each phase covers one band of totals, and the bands partition the naturals. */
  lemma MoonBands(total: nat)
    ensures SelectMoonType(total) == Crescent <==> total < 500
    ensures SelectMoonType(total) == Quarter <==> 500 <= total < 1500
    ensures SelectMoonType(total) == Gibbous <==> 1500 <= total < 3000
    ensures SelectMoonType(total) == Full <==> 3000 <= total
  {
  }

  /** The boundary totals. */
  lemma MoonBoundaries()
    ensures SelectMoonType(0) == Crescent && SelectMoonType(499) == Crescent
    ensures SelectMoonType(500) == Quarter && SelectMoonType(1499) == Quarter
    ensures SelectMoonType(1500) == Gibbous && SelectMoonType(2999) == Gibbous
    ensures SelectMoonType(3000) == Full
  {
  }

  /** More contributions never give an earlier phase. */
  lemma MoonMonotone(a: nat, b: nat)
    requires a <= b
    ensures PhaseRank(SelectMoonType(a)) <= PhaseRank(SelectMoonType(b))
  {
  }

  // ---------------------------------------------------------------------
  // Moon art

  const CrescentArt: seq<string> := [
      "               ____....",
      "           a#####~:::::::",
      "       a######P\";:::::::::::",
      "    a########:::::::::::::::::",
      "   ########P::::::::::::*::::::",
      "  ########P:::::::::::::::::.::",
      " ##### ##P::::::::::::::::::::",
      ".#### O ##:::::*::::::::::::::",
      "###### #### ::::::::::::::::::",
      "########@###,::::::::::::::::::",
      "#########~~~:::::::::::::::*:::",
      " ##### ##:::::::::::::::::::::",
      "  ####a__ay::::::::::::::::::",
      "   ########;::::::::::::::::",
      "    ########a:::::::::::::",
      "      ########.:::::::::*;:",
      "       `d######a.:::::::::",
      "          `~9#####.::::"]

  const QuarterArt: seq<string> := [
      "          ______          ",
      "      .-'` .    `'-.    ",
      "    .'  '    .---.  '.  ",
      "   /  '    .'     `'. \\",
      "  ;  '    /          \\|",
      " :  '  _ ;            `",
      ";  :  /(\\",
      "|  .       '.",
      "|  ' /     --'",
      "|  .   '.__\\",
      ";  :       /",
      " ;  .     |            ,",
      "  ;  .    \\           /|",
      "   \\  .    '.       .'/",
      "    '.  '  . `'---'`.'",
      "      `'-..._____.-`"]

  const GibbousArt: seq<string> := [
      "o                     __...__",
      "              *   .--'    __.=-.",
      "     |          ./     .-'",
      "    -O-        /      /",
      "     |        /    '\"/",
      "             |     (@)",
      "            |        \\",
      "            |         \\",
      " *          |       ___\\",
      "             |  .   /  `",
      "              \\  `~~\\",
      "         o     \\     \\",
      "                `\\    `-.__",
      "    .             `--._    `--'",
      "                       `---~~`"]

  const FullArt: seq<string> := [
      "         ___---___",
      "      .--         --.",
      "    ./   ()      .-. \\.",
      "   /   o    .   (   )  \\",
      "  / .            '-'    \\",
      " | ()    .  O         .  |",
      "|                         |",
      "|    o           ()       |",
      "|       .--.          O   |",
      " | .   |    |            |",
      "  \\    `.__.'    o   .  /",
      "   \\                   /",
      "    `\\  o    ()      /'",
      "      `--___   ___--'",
      "            ---"]

  function MoonArt(m: MoonType): seq<string>
  {
    match m
    case Crescent => CrescentArt
    case Quarter => QuarterArt
    case Gibbous => GibbousArt
    case Full => FullArt
  }

  /** Length of the longest line of the art, 0 for no lines. */
  function MoonWidth(art: seq<string>): (w: nat)
    ensures forall i :: 0 <= i < |art| ==> |art[i]| <= w
    ensures |art| > 0 ==> exists i :: 0 <= i < |art| && |art[i]| == w
    ensures |art| == 0 ==> w == 0
    decreases |art|
  {
    if |art| == 0 then 0
    else
      var rest := MoonWidth(art[..|art| - 1]);
      assert forall i :: 0 <= i < |art| - 1 ==> art[..|art| - 1][i] == art[i];
      if |art[|art| - 1]| > rest then |art[|art| - 1]| else rest
  }

  /** First column of the moon: five columns in from the right edge when the
      sky is more than ten columns wider than the moon, else column 0. */
  function MoonPosition(width: nat, moonWidth: nat): (pos: nat)
  {
    if width > moonWidth + 10 then width - moonWidth - 5 else 0
  }

  /** Where the moon goes: when there is room it ends exactly five columns
      before the right edge and starts more than five columns from the left. */
  lemma MoonPlacement(width: nat, moonWidth: nat)
    ensures width > moonWidth + 10 ==>
      MoonPosition(width, moonWidth) + moonWidth + 5 == width && MoonPosition(width, moonWidth) > 5
    ensures width <= moonWidth + 10 ==> MoonPosition(width, moonWidth) == 0
  {
  }

  // ---------------------------------------------------------------------
  // Stars

  datatype SkyCell = MoonGlyph(ch: char) | Star(ch: char) | Clear

  /** A star rule: rows with `row % rowMod == rowRem` and columns with
      `col % colMod == colRem` show `glyph`. */
  datatype StarRule = StarRule(rowMod: nat, rowRem: nat, colMod: nat, colRem: nat, glyph: char)

  /** The rules in the order the program tries them. */
  const StarRules: seq<StarRule> := [
    StarRule(3, 0, 18, 5, '.'),
    StarRule(4, 1, 15, 2, '*'),
    StarRule(2, 0, 20, 12, '+'),
    StarRule(5, 2, 12, 9, '\'')]

  predicate Matches(rule: StarRule, row: nat, col: nat)
  {
    rule.rowMod > 0 && rule.colMod > 0 && row % rule.rowMod == rule.rowRem && col % rule.colMod == rule.colRem
  }

  /** The glyph of the first rule that matches, or a clear cell. */
  function FirstStar(rules: seq<StarRule>, row: nat, col: nat): (r: SkyCell)
    ensures r.Star? ==>
      exists k :: 0 <= k < |rules| && Matches(rules[k], row, col) && r.ch == rules[k].glyph
        && forall j :: 0 <= j < k ==> !Matches(rules[j], row, col)
    ensures r.Clear? <==> forall k :: 0 <= k < |rules| ==> !Matches(rules[k], row, col)
    ensures !r.MoonGlyph?
    decreases |rules|
  {
    if |rules| == 0 then Clear
    else if Matches(rules[0], row, col) then Star(rules[0].glyph)
    else
      var r := FirstStar(rules[1..], row, col);
      assert forall k :: 1 <= k < |rules| ==> rules[1..][k - 1] == rules[k];
      r
  }

  function StarAt(row: nat, col: nat): SkyCell
  {
    FirstStar(StarRules, row, col)
  }

  /** A rule matches again 60 rows lower and 180 columns further right (60
      and 180 are multiples of every row and column modulus in the rules). */
  lemma RuleRepeats(k: nat, row: nat, col: nat)
    requires k < |StarRules|
    ensures Matches(StarRules[k], row, col) <==> Matches(StarRules[k], row + 60, col)
    ensures Matches(StarRules[k], row, col) <==> Matches(StarRules[k], row, col + 180)
  {
    if k == 0 {
      assert (row + 60) % 3 == row % 3 && (col + 180) % 18 == col % 18;
    } else if k == 1 {
      assert (row + 60) % 4 == row % 4 && (col + 180) % 15 == col % 15;
    } else if k == 2 {
      assert (row + 60) % 2 == row % 2 && (col + 180) % 20 == col % 20;
    } else {
      assert (row + 60) % 5 == row % 5 && (col + 180) % 12 == col % 12;
    }
  }

  /** The star field tiles the sky with a period of 60 rows and 180 columns. */
  lemma StarsArePeriodic(row: nat, col: nat)
    ensures StarAt(row + 60, col) == StarAt(row, col)
    ensures StarAt(row, col + 180) == StarAt(row, col)
  {
    forall k | 0 <= k < |StarRules|
      ensures Matches(StarRules[k], row, col) <==> Matches(StarRules[k], row + 60, col)
      ensures Matches(StarRules[k], row, col) <==> Matches(StarRules[k], row, col + 180)
    {
      RuleRepeats(k, row, col);
    }
  }

  /** Earlier rules win: at row 9, column 77 both the '.' and the '*' rules
      match and the cell shows '.'. */
  lemma StarPriority()
    ensures Matches(StarRules[0], 9, 77) && Matches(StarRules[1], 9, 77)
    ensures StarAt(9, 77) == Star('.')
    ensures StarAt(0, 0) == Clear
  {
  }

  // ---------------------------------------------------------------------
  // The sky block

  /** One cell: a non-blank moon character wins over any star. */
  function SkyCellAt(row: nat, col: nat, line: string, pos: nat): SkyCell
  {
    if pos <= col < pos + |line| && line[col - pos] != ' ' then MoonGlyph(line[col - pos])
    else StarAt(row, col)
  }

  /** The block of sky cells for the given moon art: one line per art row,
      `width` cells each, the moon placed by `MoonPosition`. */
  function SkyBlock(width: nat, art: seq<string>): seq<seq<SkyCell>>
  {
    var pos := MoonPosition(width, MoonWidth(art));
    seq(|art|, i requires 0 <= i < |art| =>
      seq(width, col requires 0 <= col < width => SkyCellAt(i, col, art[i], pos)))
  }

  /** `print_night_sky`: the sky block for the moon phase of the total. */
  function NightSky(width: nat, m: MoonType): seq<seq<SkyCell>>
  {
    SkyBlock(width, MoonArt(m))
  }

  /** The sky has one line per moon row, each `width` cells. A cell that is
      not part of the moon shows the star pattern of its row and column; a
      moon cell shows a non-blank character of its art line, at the offset of
      the column from the moon's first column. */
  lemma SkyBlockLayout(width: nat, art: seq<string>)
    ensures |SkyBlock(width, art)| == |art|
    ensures forall i :: 0 <= i < |art| ==> |SkyBlock(width, art)[i]| == width
    ensures forall i, col :: 0 <= i < |art| && 0 <= col < width && !SkyBlock(width, art)[i][col].MoonGlyph? ==>
      SkyBlock(width, art)[i][col] == StarAt(i, col)
    ensures forall i, col :: 0 <= i < |art| && 0 <= col < width && SkyBlock(width, art)[i][col].MoonGlyph? ==>
      var pos := MoonPosition(width, MoonWidth(art));
      pos <= col < pos + |art[i]| && art[i][col - pos] != ' ' && SkyBlock(width, art)[i][col].ch == art[i][col - pos]
  {
  }

  /** When there is room, the whole moon is drawn and nothing of it reaches
      the last five columns. */
  lemma MoonFitsInSky(width: nat, art: seq<string>)
    requires width > MoonWidth(art) + 10
    ensures forall i, k :: 0 <= i < |art| && 0 <= k < |art[i]| && art[i][k] != ' ' ==>
      SkyBlock(width, art)[i][MoonPosition(width, MoonWidth(art)) + k] == MoonGlyph(art[i][k])
    ensures forall i, col :: 0 <= i < |art| && 0 <= col < width && SkyBlock(width, art)[i][col].MoonGlyph? ==>
      col < width - 5
  {
    var w := MoonWidth(art);
    var pos := MoonPosition(width, w);
    forall i | 0 <= i < |art|
      ensures pos + |art[i]| <= width - 5
    {
      assert |art[i]| <= w;
    }
  }
}
