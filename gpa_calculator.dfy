/**
 * GPA aggregation and projection: the letter-to-points table, the
 * credit-weighted average with an honours bonus, and the GPA the remaining
 * credits need for a target GPA.
 */
module GpaCalculator {
  import opened Types
  import opened Numbers

  /** GRADE_POINTS: grade points per letter grade. */
  const GradePoints: map<string, real> := map[
    "A+" := 4.0, "A" := 4.0, "A-" := 3.7,
    "B+" := 3.3, "B" := 3.0, "B-" := 2.7,
    "C+" := 2.3, "C" := 2.0, "C-" := 1.7,
    "D+" := 1.3, "D" := 1.0, "F" := 0.0]

  /** GRADE_OPTIONS: the keys of the table in insertion order. */
  const GradeOptions: seq<string> := ["A+", "A", "A-", "B+", "B", "B-", "C+", "C", "C-", "D+", "D", "F"]

  /** The options offered are exactly the grades of the table, each once. */
  lemma GradeOptionsAreTableKeys()
    ensures forall g :: g in GradeOptions <==> g in GradePoints
    ensures forall i, j :: 0 <= i < j < |GradeOptions| ==> GradeOptions[i] != GradeOptions[j]
  {
  }

  /** `GRADE_POINTS[grade] || 0`: a grade missing from the table is worth 0 points. */
  function GradePoint(grade: string): (p: real)
    ensures grade !in GradePoints ==> p == 0.0
    ensures 0.0 <= p <= 4.0
  {
    if grade in GradePoints then GradePoints[grade] else 0.0
  }

  /** The grade point of a course, plus 1.0 for a weighted (honours/AP) course. */
  function WeightedGradePoint(c: Course): (p: real)
  {
    var gradePoint := GradePoint(c.grade);
    if c.isWeighted then gradePoint + 1.0 else gradePoint
  }

  function WeightedContribution(c: Course): (p: real) { WeightedGradePoint(c) * c.credits }
  function UnweightedContribution(c: Course): (p: real) { GradePoint(c.grade) * c.credits }
  function Credits(c: Course): (credits: real) { c.credits }
  function HonoursCredits(c: Course): (credits: real) { if c.isWeighted then c.credits else 0.0 }

  /** The sum of f over the courses, accumulated from the first to the last. */
  function Sum(s: seq<Course>, f: Course -> real): (total: real)
  {
    if s == [] then 0.0 else Sum(s[..|s| - 1], f) + f(s[|s| - 1])
  }

  function WeightedPoints(s: seq<Course>): (points: real) { Sum(s, WeightedContribution) }
  function UnweightedPoints(s: seq<Course>): (points: real) { Sum(s, UnweightedContribution) }
  function TotalCredits(s: seq<Course>): (credits: real) { Sum(s, Credits) }
  /** The credits of the weighted courses: the total honours bonus in points. */
  function WeightedCredits(s: seq<Course>): (credits: real) { Sum(s, HonoursCredits) }

  /** A list whose average is defined: empty, or with a non-zero credit total. */
  predicate HasGpa(s: seq<Course>)
  {
    s == [] || TotalCredits(s) != 0.0
  }

  /** The weighted GPA before rounding. */
  function WeightedGpa(s: seq<Course>): (gpa: real)
    requires TotalCredits(s) != 0.0
  {
    WeightedPoints(s) / TotalCredits(s)
  }

  /** The unweighted GPA before rounding. */
  function UnweightedGpa(s: seq<Course>): (gpa: real)
    requires TotalCredits(s) != 0.0
  {
    UnweightedPoints(s) / TotalCredits(s)
  }

  /** What calculateGPA returns for a list of courses. */
  function GpaOf(s: seq<Course>): (r: GpaCalculation)
    requires HasGpa(s)
    ensures r.totalCredits == TotalCredits(s)
    ensures s == [] ==> r.weightedGpa == 0.0 && r.unweightedGpa == 0.0
    ensures s != [] ==> -0.005 <= r.weightedGpa - WeightedPoints(s) / TotalCredits(s) <= 0.005
    ensures s != [] ==> -0.005 <= r.unweightedGpa - UnweightedPoints(s) / TotalCredits(s) <= 0.005
  {
    if s == [] then GpaCalculation(0.0, 0.0, 0.0)
    else GpaCalculation(ToFixed2(WeightedGpa(s)), ToFixed2(UnweightedGpa(s)), TotalCredits(s))
  }

  /** calculateGPA: one pass over the courses with three accumulators. */
  method CalculateGpa(courses: seq<Course>) returns (r: GpaCalculation)
    requires HasGpa(courses)
    ensures r == GpaOf(courses)
  {
    if |courses| == 0 {
      return GpaCalculation(0.0, 0.0, 0.0);
    }
    var weightedPoints, unweightedPoints, totalCredits := 0.0, 0.0, 0.0;
    for i := 0 to |courses|
      invariant weightedPoints == WeightedPoints(courses[..i])
      invariant unweightedPoints == UnweightedPoints(courses[..i])
      invariant totalCredits == TotalCredits(courses[..i])
    {
      var course := courses[i];
      var gradePoint := GradePoint(course.grade);
      var weightedGradePoint := if course.isWeighted then gradePoint + 1.0 else gradePoint;
      weightedPoints := weightedPoints + weightedGradePoint * course.credits;
      unweightedPoints := unweightedPoints + gradePoint * course.credits;
      totalCredits := totalCredits + course.credits;
      assert courses[..i + 1][..i] == courses[..i];
    }
    assert courses[..|courses|] == courses;
    r := GpaCalculation(
      ToFixed2(weightedPoints / totalCredits),
      ToFixed2(unweightedPoints / totalCredits),
      totalCredits);
  }

  /** The empty list has GPA 0 on both scales and no credits. */
  lemma EmptyListGpa()
    ensures GpaOf([]) == GpaCalculation(0.0, 0.0, 0.0)
  {
  }

  lemma {:induction false} SumAppend(u: seq<Course>, v: seq<Course>, f: Course -> real)
    ensures Sum(u + v, f) == Sum(u, f) + Sum(v, f)
    decreases |v|
  {
    if v != [] {
      assert (u + v)[..|u + v| - 1] == u + v[..|v| - 1];
      SumAppend(u, v[..|v| - 1], f);
    } else {
      assert u + v == u;
    }
  }

  /** Reordering the courses does not change a sum over them. */
  lemma {:induction false} SumPermutation(a: seq<Course>, b: seq<Course>, f: Course -> real)
    requires multiset(a) == multiset(b)
    ensures Sum(a, f) == Sum(b, f)
    decreases |a|
  {
    if a == [] {
      assert |multiset(b)| == 0;
    } else {
      var n := |a| - 1;
      assert a[n] in multiset(b) by {
        assert a == a[..n] + [a[n]];
      }
      var j :| 0 <= j < |b| && b[j] == a[n];
      RemoveOne(a, b, j);
      SumPermutation(a[..n], b[..j] + b[j + 1..], f);
      SumRemove(b, j, f);
    }
  }

  /** Taking the last course of a and a matching course of b out of both keeps them permutations of each other. */
  lemma RemoveOne(a: seq<Course>, b: seq<Course>, j: nat)
    requires multiset(a) == multiset(b) && a != []
    requires j < |b| && b[j] == a[|a| - 1]
    ensures multiset(a[..|a| - 1]) == multiset(b[..j] + b[j + 1..])
  {
    var n := |a| - 1;
    assert a == a[..n] + [a[n]];
    assert b == b[..j] + [b[j]] + b[j + 1..];
    assert multiset(a[..n]) == multiset(a) - multiset{a[n]};
    assert multiset(b[..j] + b[j + 1..]) == multiset(b) - multiset{b[j]};
  }

  /** A sum is the sum without one course, plus that course's term. */
  lemma SumRemove(b: seq<Course>, j: nat, f: Course -> real)
    requires j < |b|
    ensures Sum(b, f) == Sum(b[..j] + b[j + 1..], f) + f(b[j])
  {
    var u, x, w := b[..j], b[j], b[j + 1..];
    assert b == u + ([x] + w);
    SumAppend(u, [x] + w, f);
    SumAppend([x], w, f);
    SumAppend(u, w, f);
    SumSingleton(x, f);
  }

  lemma SumSingleton(x: Course, f: Course -> real)
    ensures Sum([x], f) == f(x)
  {
    assert [x][..0] == [];
  }

  /** A sum depends only on the value of f at each position. */
  lemma {:induction false} SumPointwise(a: seq<Course>, b: seq<Course>, f: Course -> real)
    requires |a| == |b|
    requires forall i :: 0 <= i < |a| ==> f(a[i]) == f(b[i])
    ensures Sum(a, f) == Sum(b, f)
    decreases |a|
  {
    if a != [] {
      SumPointwise(a[..|a| - 1], b[..|b| - 1], f);
    }
  }

  /** The weighted points exceed the unweighted points by exactly the credits of the weighted courses. */
  lemma {:induction false} HonoursBonus(s: seq<Course>)
    ensures WeightedPoints(s) - UnweightedPoints(s) == WeightedCredits(s)
    decreases |s|
  {
    if s != [] {
      HonoursBonus(s[..|s| - 1]);
      var c := s[|s| - 1];
      assert WeightedContribution(c) - UnweightedContribution(c) == HonoursCredits(c);
    }
  }

  /** Every course has credits of at least zero. */
  predicate NonNegativeCredits(s: seq<Course>)
  {
    forall i :: 0 <= i < |s| ==> s[i].credits >= 0.0
  }

  lemma ContributionBounds(c: Course)
    requires c.credits >= 0.0
    ensures 0.0 <= UnweightedContribution(c) <= 4.0 * c.credits
    ensures UnweightedContribution(c) <= WeightedContribution(c) <= 5.0 * c.credits
  {
    var gp := GradePoint(c.grade);
    assert 0.0 <= gp * c.credits <= 4.0 * c.credits;
    assert (gp + 1.0) * c.credits == gp * c.credits + c.credits;
  }

  /** With non-negative credits, the points lie between 0 and 4 (unweighted) or 5 (weighted) per credit. */
  lemma {:induction false} PointsBounds(s: seq<Course>)
    requires NonNegativeCredits(s)
    ensures 0.0 <= TotalCredits(s)
    ensures 0.0 <= UnweightedPoints(s) <= 4.0 * TotalCredits(s)
    ensures UnweightedPoints(s) <= WeightedPoints(s) <= 5.0 * TotalCredits(s)
    decreases |s|
  {
    if s != [] {
      PointsBounds(s[..|s| - 1]);
      ContributionBounds(s[|s| - 1]);
    }
  }

  /** With non-negative credits and a positive total, both GPAs lie on their scales, exact and rounded. */
  lemma GpaBounds(s: seq<Course>)
    requires NonNegativeCredits(s)
    requires TotalCredits(s) > 0.0
    ensures 0.0 <= UnweightedGpa(s) <= WeightedGpa(s)
    ensures UnweightedGpa(s) <= 4.0 && WeightedGpa(s) <= 5.0
    ensures 0.0 <= GpaOf(s).unweightedGpa <= GpaOf(s).weightedGpa
    ensures GpaOf(s).unweightedGpa <= 4.0 && GpaOf(s).weightedGpa <= 5.0
  {
    PointsBounds(s);
    var t := TotalCredits(s);
    DivideBounds(UnweightedPoints(s), 0.0, 4.0, t);
    DivideBounds(WeightedPoints(s), UnweightedGpa(s), 5.0, t);
    ToFixed2Hundredths(0);
    ToFixed2Hundredths(400);
    ToFixed2Hundredths(500);
    ToFixed2Monotone(0.0, UnweightedGpa(s));
    ToFixed2Monotone(UnweightedGpa(s), WeightedGpa(s));
    ToFixed2Monotone(UnweightedGpa(s), 4.0);
    ToFixed2Monotone(WeightedGpa(s), 5.0);
  }

  lemma DivideBounds(p: real, lo: real, hi: real, t: real)
    requires t > 0.0 && lo * t <= p <= hi * t
    ensures lo <= p / t <= hi
  {
  }

  /** calculateGPA does not depend on the order of the courses. */
  lemma GpaOfPermutation(a: seq<Course>, b: seq<Course>)
    requires multiset(a) == multiset(b)
    requires HasGpa(a)
    ensures HasGpa(b) && GpaOf(a) == GpaOf(b)
  {
    if a == [] {
      assert |multiset(b)| == 0;
    } else {
      assert |b| == |multiset(b)| == |multiset(a)| == |a|;
      SumPermutation(a, b, WeightedContribution);
      SumPermutation(a, b, UnweightedContribution);
      SumPermutation(a, b, Credits);
    }
  }

  /** calculateGPA does not depend on the courses' names. */
  lemma GpaOfIgnoresNames(a: seq<Course>, b: seq<Course>)
    requires |a| == |b|
    requires forall i :: 0 <= i < |a| ==> a[i].(name := b[i].name) == b[i]
    requires HasGpa(a)
    ensures HasGpa(b) && GpaOf(a) == GpaOf(b)
  {
    SumPointwise(a, b, WeightedContribution);
    SumPointwise(a, b, UnweightedContribution);
    SumPointwise(a, b, Credits);
  }

  /** The GPA the remaining credits need, before rounding: the target's points minus the points already earned, per remaining credit. */
  function RequiredGpa(currentGpa: real, targetGpa: real, currentCredits: real, remainingCredits: real): (required: real)
    requires remainingCredits != 0.0
    ensures required * remainingCredits + currentGpa * currentCredits == targetGpa * (currentCredits + remainingCredits)
  {
    var totalCredits := currentCredits + remainingCredits;
    var requiredPoints := targetGpa * totalCredits;
    var currentPoints := currentGpa * currentCredits;
    (requiredPoints - currentPoints) / remainingCredits
  }

  /** calculateProjection. */
  function CalculateProjection(currentGpa: real, targetGpa: real, currentCredits: real, remainingCredits: real): (p: GpaProjection)
    requires remainingCredits != 0.0
    ensures p.currentGpa == currentGpa && p.targetGpa == targetGpa && p.remainingCredits == remainingCredits
    ensures p.isAchievable <==> RequiredGpa(currentGpa, targetGpa, currentCredits, remainingCredits) <= 4.0
    ensures -0.005 <= p.requiredGpa - RequiredGpa(currentGpa, targetGpa, currentCredits, remainingCredits) <= 0.005
  {
    var requiredGpa := RequiredGpa(currentGpa, targetGpa, currentCredits, remainingCredits);
    GpaProjection(currentGpa, targetGpa, ToFixed2(requiredGpa), remainingCredits, requiredGpa <= 4.0)
  }

  /** The required GPA is the only GPA on the remaining credits that lands exactly on the target. */
  lemma RequiredGpaUnique(currentGpa: real, targetGpa: real, currentCredits: real, remainingCredits: real, x: real)
    requires remainingCredits != 0.0
    requires x * remainingCredits + currentGpa * currentCredits == targetGpa * (currentCredits + remainingCredits)
    ensures x == RequiredGpa(currentGpa, targetGpa, currentCredits, remainingCredits)
  {
    var r := RequiredGpa(currentGpa, targetGpa, currentCredits, remainingCredits);
    assert (x - r) * remainingCredits == 0.0;
  }

  /** Keeping the current GPA as the target asks for that same GPA on the remaining credits. */
  lemma SteadyTarget(gpa: real, currentCredits: real, remainingCredits: real)
    requires remainingCredits != 0.0
    ensures RequiredGpa(gpa, gpa, currentCredits, remainingCredits) == gpa
  {
    RequiredGpaUnique(gpa, gpa, currentCredits, remainingCredits, gpa);
  }

  /** With remaining credits, the target is achievable exactly when straight 4.0 grades on them reach the target's points. */
  lemma AchievableIffFourSuffices(currentGpa: real, targetGpa: real, currentCredits: real, remainingCredits: real)
    requires remainingCredits > 0.0
    ensures CalculateProjection(currentGpa, targetGpa, currentCredits, remainingCredits).isAchievable
        <==> 4.0 * remainingCredits + currentGpa * currentCredits >= targetGpa * (currentCredits + remainingCredits)
  {
    var r := RequiredGpa(currentGpa, targetGpa, currentCredits, remainingCredits);
    assert (4.0 - r) * remainingCredits == 4.0 * remainingCredits - r * remainingCredits;
    assert r <= 4.0 <==> (4.0 - r) * remainingCredits >= 0.0;
  }

  /** isAchievable is decided on the exact required GPA, not on the rounded one shown: 4.00 can be shown as not achievable. */
  lemma AchievabilityIgnoresRounding()
    ensures var p := CalculateProjection(3.0, 4.004, 0.0, 1.0);
      p.requiredGpa == 4.0 && !p.isAchievable
  {
    ToFixed2Hundredths(400);
    assert RequiredGpa(3.0, 4.004, 0.0, 1.0) == 4.004;
    assert 400.4 + 0.5 == 400.9;
    assert (400.9).Floor == 400;
  }
}
