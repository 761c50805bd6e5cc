/** Course results: weighted percentages from separately rounded components. Scores,
    weights and percentages are in hundredths. */
module CourseResults {
  import opened Common
  import opened DecimalArithmetic
  import opened GradingScale

  datatype Assessment = Assessment(key: int, weight: int, maxScore: int)

  datatype Mark = Mark(score: int, moderated: Option<int>, isIrregular: bool)

  function EffectiveScore(m: Mark): int { m.moderated.GetOr(m.score) }

  /** `_quantize(score / max * weight)`, with nothing earned on a zero maximum; decimal
      arithmetic treats the signs alike. */
  function Component(score: int, a: Assessment): int {
    if a.maxScore == 0 then 0
    else
      var earned := Earned(Abs(score), Abs(a.maxScore), Abs(a.weight));
      if (score < 0) != ((a.maxScore < 0) != (a.weight < 0)) then 0 - earned else earned
  }

  function WeightSum(assessments: seq<Assessment>): int {
    if assessments == [] then 0 else WeightSum(assessments[..|assessments| - 1]) + assessments[|assessments| - 1].weight
  }

  /** The sum of the rounded components that have a mark. */
  function PercentSum(assessments: seq<Assessment>, marks: map<int, Mark>): int {
    if assessments == [] then 0
    else
      var a := assessments[|assessments| - 1];
      PercentSum(assessments[..|assessments| - 1], marks)
      + if a.key in marks then Component(EffectiveScore(marks[a.key]), a) else 0
  }

  /** The exact weighted percentage. */
  ghost function ExactPercent(assessments: seq<Assessment>, marks: map<int, Mark>): real {
    if assessments == [] then 0.0
    else
      var a := assessments[|assessments| - 1];
      ExactPercent(assessments[..|assessments| - 1], marks)
      + if a.key in marks && a.maxScore != 0 then Share(EffectiveScore(marks[a.key]) * a.weight, a.maxScore) else 0.0
  }

  ghost function Share(n: int, d: int): real
    requires d != 0
  {
    n as real / d as real
  }

  predicate AllMarked(assessments: seq<Assessment>, marks: map<int, Mark>) {
    forall a :: a in assessments ==> a.key in marks
  }

  predicate AnyIrregular(assessments: seq<Assessment>, marks: map<int, Mark>) {
    exists a :: a in assessments && a.key in marks && marks[a.key].isIrregular
  }

  datatype Result = Result(percent: Option<int>, complete: bool, hasIrregularity: bool, configurationError: bool,
                           grade: Option<Band>)

  method CourseResult(assessments: seq<Assessment>, marks: map<int, Mark>, bands: seq<Band>) returns (r: Result)
    ensures r.percent == if assessments == [] then None else Some(PercentSum(assessments, marks))
    ensures r.hasIrregularity <==> exists a :: a in assessments && a.key in marks && marks[a.key].isIrregular
    ensures r.grade.Some? <==> r.complete && !r.hasIrregularity
    ensures r.grade.Some? ==> GradeFor(bands, PercentSum(assessments, marks)) == Graded(r.grade.value)
    ensures r.complete <==>
            && assessments != [] && WeightSum(assessments) == FULL && (forall a :: a in assessments ==> a.key in marks)
            && (r.hasIrregularity || GradeFor(bands, PercentSum(assessments, marks)).Graded?)
    ensures r.configurationError <==>
            && assessments != []
            && (WeightSum(assessments) != FULL
                || ((forall a :: a in assessments ==> a.key in marks) && !r.hasIrregularity
                    && !GradeFor(bands, PercentSum(assessments, marks)).Graded?))
  {
    var configurationError := assessments != [] && WeightSum(assessments) != FULL;
    var percent := 0;
    var complete := assessments != [] && !configurationError;
    var hasIrregularity := false;
    for i := 0 to |assessments|
      invariant percent == PercentSum(assessments[..i], marks)
      invariant complete <==> assessments != [] && !configurationError && AllMarked(assessments[..i], marks)
      invariant hasIrregularity <==> AnyIrregular(assessments[..i], marks)
    {
      var assessment := assessments[i];
      assert assessments[..i + 1] == assessments[..i] + [assessment];
      assert assessments[..i + 1][..i] == assessments[..i];
      if assessment.key !in marks {
        complete := false;
        continue;
      }
      var mark := marks[assessment.key];
      if mark.isIrregular {
        hasIrregularity := true;
      }
      percent := percent + Component(EffectiveScore(mark), assessment);
    }
    assert assessments[..|assessments|] == assessments;
    r := Result(if assessments == [] then None else Some(percent), complete, hasIrregularity, configurationError, None);
    if complete && !hasIrregularity {
      var graded := GradeFor(bands, percent);
      if graded.Graded? {
        r := r.(grade := Some(graded.band));
      } else {
        r := r.(complete := false, configurationError := true);
      }
    }
  }

  /** The weights of a scheme add up, part by part. */
  lemma {:induction false} WeightsAddUp(x: seq<Assessment>, y: seq<Assessment>)
    ensures WeightSum(x + y) == WeightSum(x) + WeightSum(y)
    ensures |x| == 1 ==> WeightSum(x) == x[0].weight
  {
    if |x| == 1 {
      assert x[..0] == [] && WeightSum([]) == 0;
    }
    if y == [] {
      assert x + y == x;
    } else {
      assert (x + y)[..|x + y| - 1] == x + y[..|y| - 1];
      WeightsAddUp(x, y[..|y| - 1]);
    }
  }

  /** A moderated score replaces the entered one: the result is the same as if the
      moderated score had been entered. */
  lemma {:induction false} ModerationReplaces(assessments: seq<Assessment>, marks: map<int, Mark>, key: int, bands: seq<Band>,
                                              score: int, moderated: int, isIrregular: bool)
    requires key in marks && marks[key] == Mark(score, Some(moderated), isIrregular)
    ensures var entered := marks[key := Mark(moderated, None, isIrregular)];
            && PercentSum(assessments, marks) == PercentSum(assessments, entered)
            && GradeFor(bands, PercentSum(assessments, marks)) == GradeFor(bands, PercentSum(assessments, entered))
  {
    if assessments != [] {
      ModerationReplaces(assessments[..|assessments| - 1], marks, key, bands, score, moderated, isIrregular);
    }
  }

  /** An unmoderated score on the one assessment of a scheme, out of a hundred, is the
      percentage. */
  lemma PlainScoreIsPercent(key: int, score: int, isIrregular: bool)
    requires 0 <= score <= FULL
    ensures WeightSum([Assessment(key, FULL, FULL)]) == FULL
    ensures PercentSum([Assessment(key, FULL, FULL)], map[key := Mark(score, None, isIrregular)]) == score
  {
    var a := Assessment(key, FULL, FULL);
    WeightsAddUp([a], []);
    assert [a][..0] == [];
    ComponentExactly(score, a);
    RoundedWhole(score, FULL);
    NoTieBetweenWholes(score, FULL);
    hide Component;
    assert PercentSum([], map[key := Mark(score, None, isIrregular)]) == 0;
  }

  lemma NoTieBetweenWholes(w: int, d: int)
    requires d > 0 && w >= 0
    ensures !ExactTie(w * d, d)
  {
    assert 2 * (w * d) + d == (2 * d) * w + d;
    Quotient(2 * d, w, d);
  }

  // ----------------------------------------------------------------- bounds

  /** The largest maximum the field's six digits can hold, 9999.99. */
  const MAX_SCORE := 999999

  /** The assessment's fields hold what their columns and validators allow, and effective
      scores lie within their maxima: the code checks the entered score, and leaves the
      moderated one to the moderator. */
  predicate InRange(a: Assessment, marks: map<int, Mark>) {
    0 <= a.weight <= FULL && a.maxScore <= MAX_SCORE && (a.key in marks ==> 0 <= EffectiveScore(marks[a.key]) <= a.maxScore)
  }

  lemma RoundedNear(n: int, d: int)
    requires d > 0 && n >= 0
    ensures 2 * n - d <= 2 * d * RoundHalfUp(n, d) <= 2 * n + d
  {
  }

  lemma RoundedMonotone(n: int, m: int, d: int)
    requires d > 0 && 0 <= n <= m
    ensures RoundHalfUp(n, d) <= RoundHalfUp(m, d)
  {
    var q, r := RoundHalfUp(n, d), RoundHalfUp(m, d);
    assert 2 * n + d == (2 * d) * q + (2 * n + d) % (2 * d);
    assert 2 * m + d == (2 * d) * r + (2 * m + d) % (2 * d);
    assert (2 * d) * q - (2 * d) * r == (2 * d) * (q - r);
    if q > r {
      Scaled(2 * d, q - r);
    }
  }

  lemma RoundedWhole(w: int, d: int)
    requires d > 0 && w >= 0
    ensures RoundHalfUp(w * d, d) == w && RoundHalfUp(0, d) == 0
  {
    assert 2 * (w * d) + d == (2 * d) * w + d;
    Quotient(2 * d, w, d);
    Quotient(2 * d, 0, d);
  }

  lemma ProductMonotone(s: int, t: int, w: int)
    requires 0 <= s <= t && w >= 0
    ensures 0 <= s * w <= t * w
  {
  }

  /** Losing a tie costs one hundredth, and nothing below zero. */
  lemma LostTie(n: int, d: int)
    requires d > 0 && n >= 0
    ensures Rounded(n, d, false) == RoundHalfUp(n, d)
    ensures Rounded(n, d, true) == RoundHalfUp(n, d) - if ExactTie(n, d) then 1 else 0
    ensures ExactTie(n, d) ==> 2 * n == 2 * d * RoundHalfUp(n, d) - d && RoundHalfUp(n, d) >= 1
  {
    var q := RoundHalfUp(n, d);
    assert 2 * n + d == (2 * d) * q + (2 * n + d) % (2 * d);
    assert (2 * d) * q == 2 * d - (2 * d) * (1 - q);
    if ExactTie(n, d) && q < 1 {
      Scaled(2 * d, 1 - q);
    }
  }

  lemma RoundedBelow(n: int, m: int, d: int)
    requires d > 0 && 0 <= n < m && ExactTie(m, d)
    ensures RoundHalfUp(n, d) <= RoundHalfUp(m, d) - 1
  {
    var q, r := RoundHalfUp(n, d), RoundHalfUp(m, d);
    RoundedMonotone(n, m, d);
    LostTie(m, d);
    RoundedNear(n, d);
    assert 2 * n + d == (2 * d) * q + (2 * n + d) % (2 * d);
    assert (2 * d) * r == 2 * m + d;
  }

  /** Within range, a component is the exact share rounded half up, lost ties aside. */
  lemma ComponentExactly(score: int, a: Assessment)
    requires 0 <= score <= a.maxScore <= MAX_SCORE && a.maxScore > 0 && 0 <= a.weight <= FULL
    ensures score * a.weight >= 0
    ensures Component(score, a) == Rounded(score * a.weight, a.maxScore, ComputedBelow(score, a.maxScore, a.weight))
  {
    hide Earned, Rounded, ComputedBelow;
    ProductMonotone(0, score, a.weight);
    EarnedExactly(score, a.maxScore, a.weight);
    if score == 0 {
      NothingRounded(a);
    }
  }

  lemma NothingRounded(a: Assessment)
    requires a.maxScore > 0
    ensures Earned(0, a.maxScore, Abs(a.weight)) == 0
  {
  }

  lemma ComponentBounded(score: int, a: Assessment)
    requires 0 <= score <= a.maxScore <= MAX_SCORE && 0 <= a.weight <= FULL
    ensures 0 <= Component(score, a) <= a.weight
  {
    if a.maxScore > 0 {
      ComponentExactly(score, a);
      hide Component, ComputedBelow;
      ProductMonotone(score, a.maxScore, a.weight);
      RoundedMonotone(0, score * a.weight, a.maxScore);
      RoundedMonotone(score * a.weight, a.maxScore * a.weight, a.maxScore);
      RoundedWhole(a.weight, a.maxScore);
      LostTie(score * a.weight, a.maxScore);
    }
  }

  /** A better score never earns less. */
  lemma ComponentMonotone(score: int, better: int, a: Assessment)
    requires 0 <= score <= better <= a.maxScore <= MAX_SCORE && 0 <= a.weight <= FULL
    ensures Component(score, a) <= Component(better, a)
  {
    if a.maxScore > 0 && score < better {
      ComponentExactly(score, a);
      ComponentExactly(better, a);
      hide Component, ComputedBelow;
      ProductMonotone(score, better, a.weight);
      RoundedMonotone(score * a.weight, better * a.weight, a.maxScore);
      LostTie(score * a.weight, a.maxScore);
      LostTie(better * a.weight, a.maxScore);
      if a.weight == 0 {
        assert score * a.weight == 0 && better * a.weight == 0;
        RoundedWhole(0, a.maxScore);
      } else {
        Grows(score, better, a.weight);
        if ExactTie(better * a.weight, a.maxScore) {
          RoundedBelow(score * a.weight, better * a.weight, a.maxScore);
        }
      }
    }
  }

  lemma Grows(s: int, t: int, w: int)
    requires s < t && w > 0
    ensures s * w < t * w
  {
  }

  lemma {:induction false} PercentWithinWeights(assessments: seq<Assessment>, marks: map<int, Mark>)
    requires forall a :: a in assessments ==> InRange(a, marks)
    ensures 0 <= PercentSum(assessments, marks) <= WeightSum(assessments)
  {
    if assessments != [] {
      var a := assessments[|assessments| - 1];
      PercentWithinWeights(assessments[..|assessments| - 1], marks);
      assert InRange(a, marks);
      if a.key in marks {
        ComponentBounded(EffectiveScore(marks[a.key]), a);
      }
    }
  }

  /** With valid weights the rounded percentage never leaves 0..100. */
  lemma PercentBounded(assessments: seq<Assessment>, marks: map<int, Mark>)
    requires WeightSum(assessments) == FULL && forall a :: a in assessments ==> InRange(a, marks)
    ensures 0 <= PercentSum(assessments, marks) <= FULL
  {
    PercentWithinWeights(assessments, marks);
  }

  lemma ShareNear(n: int, d: int, lost: bool)
    requires d > 0 && n >= 0
    ensures -0.5 <= Rounded(n, d, lost) as real - Share(n, d) <= 0.5
  {
    RoundedNear(n, d);
    LostTie(n, d);
    var q := Rounded(n, d, lost);
    assert 2 * d * (RoundHalfUp(n, d) - 1) == 2 * d * RoundHalfUp(n, d) - 2 * d;
    hide RoundHalfUp, Rounded, Share, ExactTie;
    var product, numerator, divisor := (2 * d * q) as real, n as real, d as real;
    assert 2.0 * numerator - divisor <= product <= 2.0 * numerator + divisor;
    RealProduct(2 * d, q);
    assert (2 * d) as real == 2.0 * divisor;
    ShareTimes(n, d);
    RealNear(product, numerator, q as real, Share(n, d), divisor);
  }

  lemma ShareTimes(n: int, d: int)
    requires d > 0
    ensures Share(n, d) * d as real == n as real
  {
  }

  lemma RealProduct(a: int, b: int)
    ensures (a * b) as real == a as real * b as real
  {
  }

  lemma PositiveProduct(a: real, b: real, product: real)
    requires product == a * b && b > 0.0
    ensures a > 0.0 ==> product > 0.0
  {
  }

  lemma RealNear(product: real, numerator: real, x: real, y: real, d: real)
    requires d > 0.0 && product == (2.0 * d) * x && numerator == y * d
    requires 2.0 * numerator - d <= product <= 2.0 * numerator + d
    ensures -0.5 <= x - y <= 0.5
  {
    var above, below := 2.0 * (x - y) - 1.0, 2.0 * (y - x) - 1.0;
    assert product - 2.0 * numerator - d == above * d;
    assert 2.0 * numerator - product - d == below * d;
    PositiveProduct(above, d, product - 2.0 * numerator - d);
    PositiveProduct(below, d, 2.0 * numerator - product - d);
  }

  /** Rounding each component costs at most half a hundredth each: the result is within
      n/200 of a percent of the exact weighted percentage. */
  lemma {:induction false} PercentNearExact(assessments: seq<Assessment>, marks: map<int, Mark>)
    requires forall a :: a in assessments ==> InRange(a, marks)
    ensures -0.5 * |assessments| as real <= PercentSum(assessments, marks) as real - ExactPercent(assessments, marks)
            <= 0.5 * |assessments| as real
  {
    if assessments != [] {
      var a := assessments[|assessments| - 1];
      PercentNearExact(assessments[..|assessments| - 1], marks);
      assert InRange(a, marks);
      if a.key in marks && a.maxScore != 0 {
        var score := EffectiveScore(marks[a.key]);
        ProductMonotone(score, a.maxScore, a.weight);
                ComponentExactly(score, a);
        ShareNear(score * a.weight, a.maxScore, ComputedBelow(score, a.maxScore, a.weight));
      }
    }
  }

  /** Raising scores never lowers the result. */
  lemma {:induction false} PercentMonotone(assessments: seq<Assessment>, marks: map<int, Mark>, better: map<int, Mark>)
    requires forall a :: a in assessments ==> InRange(a, marks) && InRange(a, better)
    requires forall a :: a in assessments && a.key in marks ==>
               a.key in better && EffectiveScore(marks[a.key]) <= EffectiveScore(better[a.key])
    ensures PercentSum(assessments, marks) <= PercentSum(assessments, better)
  {
    if assessments != [] {
      var a := assessments[|assessments| - 1];
      PercentMonotone(assessments[..|assessments| - 1], marks, better);
      assert InRange(a, marks) && InRange(a, better);
      if a.key in marks {
        ComponentMonotone(EffectiveScore(marks[a.key]), EffectiveScore(better[a.key]), a);
      } else if a.key in better {
        ComponentBounded(EffectiveScore(better[a.key]), a);
      }
    }
  }

  /** A complete, regular result on an accepted scale is always graded, and by the one
      band that holds its percentage. */
  lemma {:induction false} EveryResultGraded(assessments: seq<Assessment>, marks: map<int, Mark>, bands: seq<Band>, maxGradePoint: int)
    returns (i: nat)
    requires WeightSum(assessments) == FULL && forall a :: a in assessments ==> InRange(a, marks)
    requires EndsInRange(bands) && ValidateBands(bands, maxGradePoint) == Accepted
    ensures i < |bands| && GradeFor(bands, PercentSum(assessments, marks)) == Graded(bands[i])
    ensures forall j :: 0 <= j < |bands| ==> (Contains(bands[j], PercentSum(assessments, marks)) <==> j == i)
  {
    PercentBounded(assessments, marks);
    i := AcceptedScaleGrades(bands, maxGradePoint, PercentSum(assessments, marks));
  }
}
