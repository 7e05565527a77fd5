/**
 * The final-grade solver: the grade needed on the remaining weight of a course
 * for the overall grade to reach a target, capped at 100.
 */
module GradeCalculator {

  /** What calculateRequiredGrade returns. */
  datatype RequiredGrade = RequiredGrade(required: real, possible: bool)

  /** The required grade before the cap: it solves the weighted-average equation for the remaining part. */
  function UnclampedRequiredGrade(currentGrade: real, remainingWeight: real, targetGrade: real): (r: real)
    requires remainingWeight != 0.0
    ensures r * (remainingWeight / 100.0) + currentGrade * (1.0 - remainingWeight / 100.0) == targetGrade
  {
    var weight := remainingWeight / 100.0;
    var completedWeight := 1.0 - weight;
    (targetGrade - currentGrade * completedWeight) / weight
  }

  /** calculateRequiredGrade: the required grade, capped at 100 above and not bounded below. */
  function CalculateRequiredGrade(currentGrade: real, remainingWeight: real, targetGrade: real): (res: RequiredGrade)
    requires remainingWeight != 0.0
    ensures res.required <= 100.0
    ensures res.possible <==> UnclampedRequiredGrade(currentGrade, remainingWeight, targetGrade) <= 100.0
    ensures res.possible ==> res.required == UnclampedRequiredGrade(currentGrade, remainingWeight, targetGrade)
    ensures !res.possible ==> res.required == 100.0
  {
    var required := UnclampedRequiredGrade(currentGrade, remainingWeight, targetGrade);
    RequiredGrade(if required <= 100.0 then required else 100.0, required <= 100.0)
  }

  /** No other grade on the remaining part gives exactly the target. */
  lemma RequiredGradeUnique(currentGrade: real, remainingWeight: real, targetGrade: real, x: real)
    requires remainingWeight != 0.0
    requires x * (remainingWeight / 100.0) + currentGrade * (1.0 - remainingWeight / 100.0) == targetGrade
    ensures x == UnclampedRequiredGrade(currentGrade, remainingWeight, targetGrade)
  {
    var r := UnclampedRequiredGrade(currentGrade, remainingWeight, targetGrade);
    assert (x - r) * (remainingWeight / 100.0) == 0.0;
  }

  /** When everything is still to come, the required grade is the target, whatever the current grade. */
  lemma AllWeightRemaining(currentGrade: real, targetGrade: real)
    ensures UnclampedRequiredGrade(currentGrade, 100.0, targetGrade) == targetGrade
    ensures CalculateRequiredGrade(currentGrade, 100.0, targetGrade)
         == RequiredGrade(if targetGrade <= 100.0 then targetGrade else 100.0, targetGrade <= 100.0)
  {
    RequiredGradeUnique(currentGrade, 100.0, targetGrade, targetGrade);
  }

  /** A target already equal to the current grade needs that same grade on the rest. */
  lemma TargetIsCurrent(grade: real, remainingWeight: real)
    requires remainingWeight != 0.0
    ensures UnclampedRequiredGrade(grade, remainingWeight, grade) == grade
  {
    RequiredGradeUnique(grade, remainingWeight, grade, grade);
  }

  /** For a positive remaining weight, the target is possible exactly when 100 on the rest reaches it. */
  lemma PossibleIffFullMarksSuffice(currentGrade: real, remainingWeight: real, targetGrade: real)
    requires remainingWeight > 0.0
    ensures CalculateRequiredGrade(currentGrade, remainingWeight, targetGrade).possible
        <==> 100.0 * (remainingWeight / 100.0) + currentGrade * (1.0 - remainingWeight / 100.0) >= targetGrade
  {
    var r := UnclampedRequiredGrade(currentGrade, remainingWeight, targetGrade);
    var w := remainingWeight / 100.0;
    assert (100.0 - r) * w == 100.0 * w - r * w;
    assert r <= 100.0 <==> (100.0 - r) * w >= 0.0;
  }

  /** A target already passed gives a negative required grade, reported as possible and not raised to 0. */
  lemma NoLowerClamp()
    ensures CalculateRequiredGrade(90.0, 50.0, 40.0) == RequiredGrade(-10.0, true)
  {
    RequiredGradeUnique(90.0, 50.0, 40.0, -10.0);
  }
}
