/**
 The height scaler: maps one day's count to a building height, given the
 series maximum, the target canvas height and the name of a scaling mode.
 The floating-point transforms (square root, natural logarithm and the power
 1.2) are not interpreted here: they are supplied as a `Curves` value, and the
 properties that need them assume only what `Sound` states about them. The
 guards, the rounding, the saturating conversion to an unsigned 32-bit integer
 and the minimum height for a nonzero count are modelled exactly.
 */
module Building {
  import opened Series

  /** Largest value of the program's unsigned 32-bit heights. */
  const U32Max: nat := 0xFFFF_FFFF

  /** The floating-point functions the scaler calls. */
  datatype Curves = Curves(sqrt: real -> real, ln: real -> real, pow12: real -> real)

  /** What the scaler relies on: the square root and the power 1.2 map the unit
      interval into itself, and the logarithm is positive above 1 and monotone. */
  ghost predicate Sound(c: Curves)
  {
    && (forall x :: 0.0 <= x <= 1.0 ==> 0.0 <= c.sqrt(x) <= 1.0)
    && (forall x :: 0.0 <= x <= 1.0 ==> 0.0 <= c.pow12(x) <= 1.0)
    && (forall x :: 1.0 < x ==> 0.0 < c.ln(x))
    && (forall x, y :: 1.0 <= x <= y ==> c.ln(x) <= c.ln(y))
  }

  /** The square root and the power 1.2 are monotone on the unit interval. */
  ghost predicate Monotone(c: Curves)
  {
    && (forall x, y :: 0.0 <= x <= y <= 1.0 ==> c.sqrt(x) <= c.sqrt(y))
    && (forall x, y :: 0.0 <= x <= y <= 1.0 ==> c.pow12(x) <= c.pow12(y))
  }

  /** The scaling modes; every name that is not linear, sqrt or log selects Dramatic. */
  datatype Scale = Linear | Sqrt | Log | Dramatic

  /** Lower-cases the ASCII letters and keeps every other character. */
  function LowerChar(ch: char): (r: char)
    ensures 'A' <= ch <= 'Z' ==> 'a' <= r <= 'z'
    ensures !('A' <= ch <= 'Z') ==> r == ch
  {
    if 'A' <= ch <= 'Z' then (ch as int - 'A' as int + 'a' as int) as char else ch
  }

  function ToLower(s: string): (r: string)
    ensures |r| == |s|
    ensures forall i :: 0 <= i < |s| ==> r[i] == LowerChar(s[i])
  {
    seq(|s|, i requires 0 <= i < |s| => LowerChar(s[i]))
  }

  /** Lower-casing twice is lower-casing once. */
  lemma ToLowerIdempotent(s: string)
    ensures ToLower(ToLower(s)) == ToLower(s)
  {
    var once := ToLower(s);
    forall i | 0 <= i < |s| ensures LowerChar(once[i]) == once[i] {
    }
  }

  /** The mode selected by a scale name, compared without regard to case. */
  function ParseScale(name: string): Scale
  {
    match ToLower(name)
    case "linear" => Linear
    case "sqrt" => Sqrt
    case "log" => Log
    case _ => Dramatic
  }

  /** Smallest height of a building whose count is nonzero. */
  function MinNonzero(m: Scale): nat
  {
    if m == Dramatic then 2 else 1
  }

  /** The mode's transform of `count` relative to `max`. */
  function Shape(m: Scale, count: nat, max: nat, c: Curves): real
    requires max > 0
  {
    var normalized := count as real / max as real;
    match m
    case Linear => normalized
    case Sqrt => c.sqrt(normalized)
    case Log =>
      var num := c.ln(1.0 + count as real);
      var den := c.ln(1.0 + max as real);
      if den > 0.0 then num / den else 0.0
    case Dramatic => c.pow12(normalized)
  }

  /** Round half away from zero, then convert to an unsigned 32-bit integer,
      saturating at both ends. */
  function RoundToU32(x: real): (r: nat)
    ensures r <= U32Max
    ensures x <= 0.0 ==> r == 0
    ensures 0.0 <= x && x + 0.5 < (U32Max + 1) as real ==> r as real <= x + 0.5 < r as real + 1.0
  {
    if x <= 0.0 then 0
    else
      var k := (x + 0.5).Floor;
      if k > U32Max then U32Max else k
  }

  lemma RoundMonotone(x: real, y: real)
    requires x <= y
    ensures RoundToU32(x) <= RoundToU32(y)
  {
  }

  /** The product `f * n`, written as repeated addition so that every proof
      about it stays within linear arithmetic. */
  function Times(f: real, n: nat): real
  {
    if n == 0 then 0.0 else Times(f, n - 1) + f
  }

  /** A fraction in [0, 1] of `n` lies in [0, n]. */
  lemma {:induction false} TimesBounds(f: real, n: nat)
    requires 0.0 <= f <= 1.0
    ensures 0.0 <= Times(f, n) <= n as real
  {
    if n > 0 {
      TimesBounds(f, n - 1);
    }
  }

  /** A larger fraction of `n` is no smaller. */
  lemma {:induction false} TimesMonotone(fa: real, fb: real, n: nat)
    requires fa <= fb
    ensures Times(fa, n) <= Times(fb, n)
  {
    if n > 0 {
      TimesMonotone(fa, fb, n - 1);
    }
  }

  /** The whole of `n` is `n`. */
  lemma {:induction false} TimesOne(n: nat)
    ensures Times(1.0, n) == n as real
  {
    if n > 0 {
      TimesOne(n - 1);
    }
  }

  /** The scaler once the mode is known. */
  function ScaleWith(m: Scale, count: nat, max: nat, target: nat, c: Curves): (r: nat)
    ensures count == 0 || max == 0 || target == 0 ==> r == 0
    ensures count > 0 && max > 0 && target > 0 ==> r >= MinNonzero(m)
    ensures r <= U32Max
  {
    if max == 0 || count == 0 || target == 0 then 0
    else Raise(m, RoundToU32(Times(Shape(m, count, max, c), target)))
  }

  /** Lifts a rounded height to the mode's minimum nonzero height. */
  function Raise(m: Scale, rounded: nat): (r: nat)
    ensures r >= rounded && r >= MinNonzero(m)
    ensures r == rounded || r == MinNonzero(m)
  {
    if rounded < MinNonzero(m) then MinNonzero(m) else rounded
  }

  /** `scale_height`: 0 for a zero count, maximum or target; otherwise the
      rounded transform, raised to the mode's minimum height. */
  function ScaleHeight(count: nat, max: nat, target: nat, name: string, c: Curves): (r: nat)
    ensures count == 0 || max == 0 || target == 0 ==> r == 0
    ensures count > 0 && max > 0 && target > 0 ==> r >= MinNonzero(ParseScale(name))
    ensures r <= U32Max
  {
    ScaleWith(ParseScale(name), count, max, target, c)
  }

  // ---------------------------------------------------------------------
  // Properties

  /** Upper-case and mixed-case spellings select the same mode. */
  lemma ScaleNamesIgnoreCase(name: string)
    ensures ParseScale(name) == ParseScale(ToLower(name))
    ensures ParseScale("LINEAR") == Linear && ParseScale("Sqrt") == Sqrt
    ensures ParseScale("LOG") == Log && ParseScale("Exp") == Dramatic
  {
    ToLowerIdempotent(name);
    assert ToLower("LINEAR") == "linear";
    assert ToLower("Sqrt") == "sqrt";
    assert ToLower("LOG") == "log";
    assert ToLower("Exp") == "exp";
  }

  /** An unrecognised name scales exactly like "dramatic" (and "exp"). */
  lemma UnknownNamesScaleDramatically(count: nat, max: nat, target: nat, name: string, c: Curves)
    requires ToLower(name) != "linear" && ToLower(name) != "sqrt" && ToLower(name) != "log"
    ensures ScaleHeight(count, max, target, name, c) == ScaleHeight(count, max, target, "dramatic", c)
    ensures ScaleHeight(count, max, target, name, c) == ScaleHeight(count, max, target, "exp", c)
  {
    assert ToLower("dramatic") == "dramatic";
    assert ToLower("exp") == "exp";
  }

  /** Whenever the count, the maximum and the target are all positive, the
      height is at least 1 for linear, sqrt and log and at least 2 otherwise. */
  lemma NonzeroCountsStandUp(count: nat, max: nat, target: nat, name: string, c: Curves)
    requires count > 0 && max > 0 && target > 0
    ensures ToLower(name) in {"linear", "sqrt", "log"} ==> ScaleHeight(count, max, target, name, c) >= 1
    ensures ToLower(name) !in {"linear", "sqrt", "log"} ==> ScaleHeight(count, max, target, name, c) >= 2
  {
  }

  /** Real division by a positive number keeps the order. */
  lemma DivideMonotone(a: real, b: real, d: real)
    requires a <= b && d > 0.0
    ensures a / d <= b / d
  {
    assert (b - a) / d >= 0.0;
    assert a / d + (b - a) / d == b / d;
  }

  /** A ratio of a non-negative number to a larger positive one lies in [0, 1]. */
  lemma RatioInUnit(num: real, den: real)
    requires 0.0 <= num <= den && den > 0.0
    ensures 0.0 <= num / den <= 1.0
  {
    DivideMonotone(num, den, den);
    DivideMonotone(0.0, num, den);
  }

  /** Rounding a fraction of an integer target stays within the target. */
  lemma RoundedFraction(f: real, target: nat)
    requires 0.0 <= f <= 1.0 && target <= U32Max
    ensures RoundToU32(Times(f, target)) <= target
  {
    TimesBounds(f, target);
  }

  /** Rounding ordered fractions of a target gives ordered heights. */
  lemma RoundedOrdered(fa: real, fb: real, target: nat)
    requires fa <= fb
    ensures RoundToU32(Times(fa, target)) <= RoundToU32(Times(fb, target))
  {
    TimesMonotone(fa, fb, target);
    RoundMonotone(Times(fa, target), Times(fb, target));
  }

  /** With a sound transform and 0 < count <= max, the transform lies in [0, 1]. */
  lemma ShapeInUnit(m: Scale, count: nat, max: nat, c: Curves)
    requires Sound(c)
    requires 0 < count <= max
    ensures 0.0 <= Shape(m, count, max, c) <= 1.0
  {
    RatioInUnit(count as real, max as real);
    if m == Log {
      var num := c.ln(1.0 + count as real);
      var den := c.ln(1.0 + max as real);
      assert 0.0 < num <= den;
      RatioInUnit(num, den);
    }
  }

  /** A transform in [0, 1] gives a height within the target or the mode's minimum. */
  lemma ScaleWithBounded(m: Scale, count: nat, max: nat, target: nat, c: Curves)
    requires 0 < count && 0 < max && target <= U32Max
    requires 0.0 <= Shape(m, count, max, c) <= 1.0
    ensures ScaleWith(m, count, max, target, c) <= Max(target, MinNonzero(m))
  {
    RoundedFraction(Shape(m, count, max, c), target);
  }

  /** With a sound transform and 0 < count <= max, the height never exceeds
      the target, except where the minimum nonzero height lifts it. */
  lemma ScaleHeightBounded(count: nat, max: nat, target: nat, name: string, c: Curves)
    requires Sound(c)
    requires 0 < count <= max && target <= U32Max
    ensures ScaleHeight(count, max, target, name, c) <= Max(target, MinNonzero(ParseScale(name)))
  {
    ShapeInUnit(ParseScale(name), count, max, c);
    ScaleWithBounded(ParseScale(name), count, max, target, c);
  }

  /** A larger count never gives a smaller transform. */
  lemma ShapeMonotone(m: Scale, a: nat, b: nat, max: nat, c: Curves)
    requires Sound(c) && Monotone(c)
    requires 0 < a <= b <= max
    ensures Shape(m, a, max, c) <= Shape(m, b, max, c)
  {
    DivideMonotone(a as real, b as real, max as real);
    RatioInUnit(a as real, max as real);
    RatioInUnit(b as real, max as real);
    if m == Log {
      var den := c.ln(1.0 + max as real);
      assert den > 0.0;
      DivideMonotone(c.ln(1.0 + a as real), c.ln(1.0 + b as real), den);
    }
  }

  /** Ordered transforms give ordered heights. */
  lemma ScaleWithOrdered(m: Scale, a: nat, b: nat, max: nat, target: nat, c: Curves)
    requires 0 < a <= b && 0 < max
    requires Shape(m, a, max, c) <= Shape(m, b, max, c)
    ensures ScaleWith(m, a, max, target, c) <= ScaleWith(m, b, max, target, c)
  {
    RoundedOrdered(Shape(m, a, max, c), Shape(m, b, max, c), target);
  }

  /** With monotone transforms the height never decreases as the count grows. */
  lemma ScaleHeightMonotone(a: nat, b: nat, max: nat, target: nat, name: string, c: Curves)
    requires Sound(c) && Monotone(c)
    requires a <= b <= max
    ensures ScaleHeight(a, max, target, name, c) <= ScaleHeight(b, max, target, name, c)
  {
    if a > 0 {
      ShapeMonotone(ParseScale(name), a, b, max, c);
      ScaleWithOrdered(ParseScale(name), a, b, max, target, c);
    }
  }

  /** In linear mode the busiest day reaches exactly the target height. */
  lemma LinearPeakReachesTarget(max: nat, target: nat, c: Curves)
    requires max > 0 && target <= U32Max
    ensures ScaleHeight(max, max, target, "linear", c) == target
  {
    assert ToLower("linear") == "linear";
    assert ParseScale("linear") == Linear;
    if target > 0 {
      assert max as real / max as real == 1.0;
      assert Shape(Linear, max, max, c) == 1.0;
      TimesOne(target);
      assert RoundToU32(target as real) == target;
      assert ScaleWith(Linear, max, max, target, c) == target;
    }
  }

  // ---------------------------------------------------------------------
  // Whole-series helpers

  /** The largest count, or 1 for an empty series. */
  function GetMaxHeight(s: Counts): (r: nat)
    ensures forall i :: 0 <= i < |s| ==> s[i] <= r
    ensures |s| > 0 ==> exists i :: 0 <= i < |s| && s[i] == r
    ensures |s| == 0 ==> r == 1
  {
    if |s| == 0 then 1 else MaxOf(s)
  }

  /** `compute_building_heights`: scales every day with the same parameters. */
  function ComputeBuildingHeights(s: Counts, max: nat, target: nat, name: string, c: Curves): (r: seq<nat>)
    ensures |r| == |s|
    ensures forall i :: 0 <= i < |s| ==> r[i] == ScaleHeight(s[i], max, target, name, c)
    decreases |s|
  {
    if |s| == 0 then []
    else ComputeBuildingHeights(s[..|s| - 1], max, target, name, c) + [ScaleHeight(s[|s| - 1], max, target, name, c)]
  }

  /** One day scaled against a maximum at least its own count stays within
      the target (or the minimum height), and is 0 exactly on a quiet day or
      a zero target. */
  lemma DayHeightBounded(count: nat, max: nat, target: nat, name: string, c: Curves)
    requires Sound(c) && target <= U32Max && count <= max
    ensures ScaleHeight(count, max, target, name, c) <= Max(target, MinNonzero(ParseScale(name)))
    ensures ScaleHeight(count, max, target, name, c) == 0 <==> count == 0 || target == 0
  {
    if count > 0 {
      ScaleHeightBounded(count, max, target, name, c);
    }
  }

  /** Scaled against the series maximum with a sound transform, every day
      gets a height within the target (or the minimum height), and exactly
      the quiet days get height 0. */
  lemma BuildingHeightsBounded(s: Counts, target: nat, name: string, c: Curves)
    requires Sound(c) && target <= U32Max
    ensures var h := ComputeBuildingHeights(s, GetMaxHeight(s), target, name, c);
      forall i :: 0 <= i < |s| ==>
        && h[i] <= Max(target, MinNonzero(ParseScale(name)))
        && (h[i] == 0 <==> s[i] == 0 || target == 0)
  {
    var max := GetMaxHeight(s);
    forall i | 0 <= i < |s|
      ensures ScaleHeight(s[i], max, target, name, c) <= Max(target, MinNonzero(ParseScale(name)))
      ensures ScaleHeight(s[i], max, target, name, c) == 0 <==> s[i] == 0 || target == 0
    {
      DayHeightBounded(s[i], max, target, name, c);
    }
  }
}
