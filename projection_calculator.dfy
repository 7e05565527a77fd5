/**
 * The projection panel: the letter grade shown for a GPA, and the guard that
 * runs a projection only when both inputs parse as numbers.
 */
module ProjectionCalculator {
  import opened Wrappers
  import opened Types
  import GpaCalculator

  /** The letters getLetterGrade can produce, from best to worst. */
  const Letters: seq<string> := ["A", "A-", "B+", "B", "B-", "C+", "C", "C-", "D+", "D", "F"]

  /** The lower bound of each letter's band; Letters[k] needs at least Thresholds[k], except F. */
  const Thresholds: seq<real> := [4.0, 3.7, 3.3, 3.0, 2.7, 2.3, 2.0, 1.7, 1.3, 1.0]

  /** gpa lies in the half-open band of Letters[k]: below the next letter up, at or above its own bound. */
  predicate InBand(gpa: real, k: nat)
    requires k < |Letters|
  {
    (k == 0 || gpa < Thresholds[k - 1]) && (k == |Thresholds| || Thresholds[k] <= gpa)
  }

  /** getLetterGrade. */
  function LetterGrade(gpa: real): (letter: string)
    ensures letter in Letters
    // Implied by the line above; stated because the points table has an A+ that no GPA maps back to.
    ensures letter != "A+"
  {
    if gpa >= 4.0 then "A"
    else if gpa >= 3.7 then "A-"
    else if gpa >= 3.3 then "B+"
    else if gpa >= 3.0 then "B"
    else if gpa >= 2.7 then "B-"
    else if gpa >= 2.3 then "C+"
    else if gpa >= 2.0 then "C"
    else if gpa >= 1.7 then "C-"
    else if gpa >= 1.3 then "D+"
    else if gpa >= 1.0 then "D"
    else "F"
  }

  /** Every GPA of 4.0 or more is an A and every GPA below 1.0 an F. */
  lemma LetterGradeExtremes(gpa: real)
    ensures gpa >= 4.0 ==> LetterGrade(gpa) == "A"
    ensures gpa < 1.0 ==> LetterGrade(gpa) == "F"
  {
  }

  /** Each letter is produced for exactly the GPAs of its band. */
  lemma LetterGradeBands(gpa: real, k: nat)
    requires k < |Letters|
    ensures LetterGrade(gpa) == Letters[k] <==> InBand(gpa, k)
  {
  }

  /** A higher GPA never gets a lower letter in the A to F order. */
  lemma LetterGradeMonotone(g1: real, g2: real, k1: nat, k2: nat)
    requires g1 <= g2
    requires k1 < |Letters| && k2 < |Letters|
    requires LetterGrade(g1) == Letters[k1] && LetterGrade(g2) == Letters[k2]
    ensures k2 <= k1
  {
    LetterGradeBands(g1, k1);
    LetterGradeBands(g2, k2);
  }

  /** The point value of every letter except A+ maps back to that letter. */
  lemma LetterOfGradePoints(letter: string)
    requires letter in GpaCalculator.GradePoints && letter != "A+"
    ensures LetterGrade(GpaCalculator.GradePoints[letter]) == letter
  {
  }

  /** handleCalculate: a parse that gives NaN (None) keeps the previous projection; otherwise the projection is replaced. */
  function HandleCalculate(
    projection: Option<GpaProjection>,
    currentGpa: real,
    currentCredits: real,
    target: Option<real>,
    remaining: Option<real>): (next: Option<GpaProjection>)
    requires target.Some? && remaining.Some? ==> remaining.value != 0.0
    ensures target.None? || remaining.None? ==> next == projection
    ensures target.Some? && remaining.Some? ==>
      next.Some? && next.value.currentGpa == currentGpa && next.value.targetGpa == target.value
      && next.value.remainingCredits == remaining.value
      && (next.value.isAchievable <==>
            GpaCalculator.RequiredGpa(currentGpa, target.value, currentCredits, remaining.value) <= 4.0)
      && -0.005 <= next.value.requiredGpa
                   - GpaCalculator.RequiredGpa(currentGpa, target.value, currentCredits, remaining.value) <= 0.005
    ensures target.Some? && remaining.Some? ==>
      next == Some(GpaCalculator.CalculateProjection(currentGpa, target.value, currentCredits, remaining.value))
  {
    if target.None? || remaining.None? then projection
    else Some(GpaCalculator.CalculateProjection(currentGpa, target.value, currentCredits, remaining.value))
  }
}
