# GPA calculators, modelled in Dafny

This project models the grade arithmetic and course-list handling of the GPA
calculators in this repository:

- **GPA aggregation and projection** (`project/src/utils/gpaCalculator.ts`): the
  letter-to-points table, `calculateGPA` (a credit-weighted average with a 1.0
  honours bonus per weighted course, written as a loop over three accumulators)
  and `calculateProjection` (the GPA the remaining credits need to reach a target GPA).
- **Final-grade solver** (`GPA_Calculator/src/utils/gradeCalculator.ts`): the grade
  needed on the remaining weight of a course, capped at 100, with a `possible` flag.
- **Letter grades** (`AcademicWeaponV1.5/src/components/ProjectionCalculator.tsx`):
  the threshold chain `getLetterGrade` and the NaN guard of `handleCalculate`.
- **Course list** (`project/src/App.tsx`): the initial list, add, update and
  delete, and the filter that chooses which courses the GPA is computed over.

Numbers are exact `real`s. `Number(x.toFixed(2))` is modelled as rounding the exact
value to hundredths, half away from zero, as Number.prototype.toFixed of ECMA-262
does. The properties are proved about the unrounded quantities, and the rounded
fields are proved to stay within 0.005 of them.

The files are `wrappers.dfy` (Option), `types.dfy` (the records of
`project/src/types.ts`), `numbers.dfy` (rounding), `gpa_calculator.dfy`,
`grade_calculator.dfy`, `projection_calculator.dfy` and `app.dfy`. The course list
is a class `App.CourseList` whose `courses` field the handlers reassign.
`calculateGPA` is the method `GpaCalculator.CalculateGpa`. Its loop is proved
against the recursive sums `WeightedPoints`, `UnweightedPoints` and `TotalCredits`.

## Model

| member | source | states |
|---|---|---|
| GpaCalculator.GradePoint | project/src/utils/gpaCalculator.ts:1-28 | a grade missing from the table is worth 0 points; every grade point lies in [0, 4.0] |
| GpaCalculator.GradeOptionsAreTableKeys | project/src/utils/gpaCalculator.ts:16 | the grade options are exactly the table's grades, each listed once |
| GpaCalculator.CalculateGpa | project/src/utils/gpaCalculator.ts:18-41 | the loop's three accumulators end as the credit-weighted sums of weighted points, unweighted points and credits, and the result is those averages rounded |
| GpaCalculator.EmptyListGpa | project/src/utils/gpaCalculator.ts:19-21 | an empty list gives weighted GPA, unweighted GPA and total credits 0 |
| GpaCalculator.GpaOf | project/src/utils/gpaCalculator.ts:18-41 | the value calculateGPA returns: totalCredits is the sum of the credits; an empty list has both GPAs 0; otherwise each GPA is within 0.005 of its points divided by the credits |
| GpaCalculator.HonoursBonus | project/src/utils/gpaCalculator.ts:29-32 | weighted points minus unweighted points equals the credits of the weighted courses |
| GpaCalculator.PointsBounds | project/src/utils/gpaCalculator.ts:27-34 | with non-negative credits, 0 <= unweighted points <= 4 per credit and unweighted <= weighted <= 5 per credit |
| GpaCalculator.GpaBounds | project/src/utils/gpaCalculator.ts:36-40 | with non-negative credits and a positive total, 0 <= unweighted GPA <= weighted GPA, unweighted <= 4.0, weighted <= 5.0, both before and after rounding |
| GpaCalculator.SumPermutation | project/src/utils/gpaCalculator.ts:27-34 | a sum over the courses is the same for any reordering of them |
| GpaCalculator.GpaOfPermutation | project/src/utils/gpaCalculator.ts:18-41 | two lists that are permutations of each other get the same GPA result |
| GpaCalculator.GpaOfIgnoresNames | project/src/utils/gpaCalculator.ts:27-34 | lists that differ only in course names get the same GPA result |
| GpaCalculator.RequiredGpa | project/src/utils/gpaCalculator.ts:49-52 | required GPA × remaining credits + current GPA × current credits = target GPA × all credits |
| GpaCalculator.RequiredGpaUnique | project/src/utils/gpaCalculator.ts:49-52 | no other GPA on the remaining credits lands exactly on the target |
| GpaCalculator.SteadyTarget | project/src/utils/gpaCalculator.ts:49-52 | a target equal to the current GPA requires that same GPA |
| GpaCalculator.CalculateProjection | project/src/utils/gpaCalculator.ts:54-59 | current GPA, target GPA and remaining credits are echoed; isAchievable holds iff the exact required GPA <= 4.0; the shown required GPA is within 0.005 of the exact one |
| GpaCalculator.AchievableIffFourSuffices | project/src/utils/gpaCalculator.ts:59 | for positive remaining credits, achievable iff straight 4.0 grades on them reach the target's points |
| GpaCalculator.AchievabilityIgnoresRounding | project/src/utils/gpaCalculator.ts:57-59 | a required GPA shown as 4.00 can be reported not achievable, since the flag uses the unrounded value |
| Numbers.ToFixed2 | project/src/utils/gpaCalculator.ts:37-38 | the rounded value has at most two decimals and is within 0.005 of its input |
| Numbers.ToFixed2Monotone | project/src/utils/gpaCalculator.ts:37-38 | rounding preserves order |
| Numbers.ToFixed2Hundredths | project/src/utils/gpaCalculator.ts:57 | a value with at most two decimals is unchanged by rounding |
| GradeCalculator.UnclampedRequiredGrade | GPA_Calculator/src/utils/gradeCalculator.ts:7-11 | r × w/100 + current × (1 − w/100) = target |
| GradeCalculator.CalculateRequiredGrade | GPA_Calculator/src/utils/gradeCalculator.ts:13-16 | required <= 100; possible iff the unclamped grade <= 100; if possible, required is the unclamped grade, otherwise exactly 100 |
| GradeCalculator.RequiredGradeUnique | GPA_Calculator/src/utils/gradeCalculator.ts:7-11 | the unclamped grade is the only solution of the weighted-average equation |
| GradeCalculator.AllWeightRemaining | GPA_Calculator/src/utils/gradeCalculator.ts:7-15 | with remaining weight 100 the required grade is the target, whatever the current grade |
| GradeCalculator.TargetIsCurrent | GPA_Calculator/src/utils/gradeCalculator.ts:7-11 | a target equal to the current grade requires that grade |
| GradeCalculator.PossibleIffFullMarksSuffice | GPA_Calculator/src/utils/gradeCalculator.ts:15 | for a positive remaining weight, possible iff 100 on the remaining part reaches the target |
| GradeCalculator.NoLowerClamp | GPA_Calculator/src/utils/gradeCalculator.ts:14-15 | a negative required grade (−10 for current 90, weight 50, target 40) is returned as is, with possible true |
| ProjectionCalculator.LetterGrade | AcademicWeaponV1.5/src/components/ProjectionCalculator.tsx:35-47 | the letter is one of A, A-, B+, B, B-, C+, C, C-, D+, D, F, and never A+ |
| ProjectionCalculator.LetterGradeExtremes | AcademicWeaponV1.5/src/components/ProjectionCalculator.tsx:36-46 | every GPA >= 4.0 is an A, every GPA < 1.0 an F |
| ProjectionCalculator.LetterGradeBands | AcademicWeaponV1.5/src/components/ProjectionCalculator.tsx:37-45 | each letter is produced exactly for the GPAs in its half-open band, e.g. [3.7, 4.0) for A- |
| ProjectionCalculator.LetterGradeMonotone | AcademicWeaponV1.5/src/components/ProjectionCalculator.tsx:36-46 | a higher GPA never gets a letter lower in the A to F order |
| ProjectionCalculator.LetterOfGradePoints | AcademicWeaponV1.5/src/components/ProjectionCalculator.tsx:36-46 | for every letter of the points table except A+, the letter of its point value is that letter |
| ProjectionCalculator.HandleCalculate | AcademicWeaponV1.5/src/components/ProjectionCalculator.tsx:18-33 | if either input parsed as NaN the previous projection is kept; otherwise the new projection is calculateProjection of the inputs: it echoes them, its required GPA is within 0.005 of the exact one, and it is achievable iff the exact required GPA <= 4.0 |
| App.CourseList.constructor | project/src/App.tsx:12-14 | the list starts as one blank course: name '', grade '', 3 credits, not weighted |
| App.CourseList.AddCourse | project/src/App.tsx:16-18 | one blank course is appended; the earlier courses are unchanged |
| App.CourseList.UpdateCourse | project/src/App.tsx:20-24 | only the course at the index is replaced; the length and the other courses are unchanged |
| App.CourseList.DeleteCourse | project/src/App.tsx:26-28 | an index in range removes exactly that course, keeping the order of the rest; any other index changes nothing |
| App.Without | project/src/App.tsx:27 | the index filter drops one course when the index is in range and none otherwise, and keeps only courses of the list |
| App.WithoutInRange | project/src/App.tsx:27 | the index filter with an index in range is the list with that one position cut out |
| App.WithoutOutOfRange | project/src/App.tsx:27 | the index filter with an index out of range returns the list unchanged |
| App.GradedCourses | project/src/App.tsx:30 | the GPA filter returns at most as many courses as it is given, all taken from the list |
| App.GradedCoursesAppend | project/src/App.tsx:30 | the GPA filter of a concatenation is the concatenation of the filtered parts, so the original order is kept |
| App.GradedCoursesOccurrences | project/src/App.tsx:30 | a course is kept, as often as it occurs, iff it has a non-empty grade and positive credits |
| App.GradedCoursesAreGraded | project/src/App.tsx:30 | every course passed to the GPA computation has a grade and positive credits |
| App.PositiveTotal | project/src/App.tsx:30 | a non-empty list of courses with positive credits has a positive credit total |
| App.GradedGpaBounds | project/src/App.tsx:30 | the filtered list always has a defined GPA, with 0 <= unweighted <= weighted, unweighted <= 4.0 and weighted <= 5.0 |
| App.CourseList.Gpa | project/src/App.tsx:30 | the page's GPA is calculateGPA over the filtered courses, and it lies on the 4.0 and 5.0 scales |

## Left out

- Numbers.ToFixed2: rounds the exact real value. The source rounds a binary double, so a value such as 1.005 may round the other way there. Values of 10^21 and above, which toFixed prints in exponent form, are not modelled either.
- Floating-point accumulation error in the sums and divisions is not modelled: every quantity is an exact real.
- GpaCalculator.CalculateGpa: a non-empty list whose credits sum to 0 divides by zero (NaN or Infinity in the source). The model requires a non-zero total. The page's own filter (`App.GradedCourses`) never produces such a list.
- GpaCalculator.CalculateProjection: remaining credits of 0 divide by zero in the source. The model requires them to be non-zero.
- GradeCalculator.CalculateRequiredGrade: a remaining weight of 0 divides by zero in the source. A target above the current grade then gives +Infinity, reported as 100 and not possible. A target below it gives −Infinity, returned as possible. Only a target equal to the current grade gives NaN. The model requires a non-zero weight.
- ProjectionCalculator.HandleCalculate: `parseFloat` is not modelled. Its result is a parameter, with None standing for NaN. Remaining credits of 0 are excluded only when both inputs parse, since otherwise the guard returns before any division. React state updates and rendering are left out.
- ProjectionCalculator.HandleCalculate: calls `calculateProjection` from `AcademicWeaponV1.5/src/utils/gpaCalculator`, which is not part of this model. The model assumes it is the same as `project/src/utils/gpaCalculator.ts` and calls `GpaCalculator.CalculateProjection`. Its achievability and required-GPA clauses rest on that assumption.
- App.CourseList.UpdateCourse: requires the index to be in range, as every caller passes the index of an existing row. An index equal to the length would append the course. A larger index would extend the array and leave holes before it. A negative index would set a property that is not an element.
- A grade string that names a property inherited by every JavaScript object (such as "toString") would look up a function, not a number. The model treats every grade missing from the table as worth 0, as `|| 0` does for all other strings. The course editor that `project/src/App.tsx` renders is not part of this model. The select list of the same name in `AcademicWeaponV1.5/src/components/CourseInput.tsx:31-36` offers only the table's grades and the empty string. The model assumes the editor project renders does the same.
- The NaN guard of `GPA_Calculator/src/components/FinalGradeCalculator.tsx:15-17` and the "empty credits field means 0" rule of `AcademicWeaponV1.5/src/components/CourseInput.tsx:45` are form handling, not modelled.
- PDF export (`window.print()`), the academic planner's network request, the server function that calls a language model, and all rendering are I/O or presentation, and are not modelled.
- The trend-analysis pipeline (CSV ingestion, cleaning, regression, forecasting) and the mood journal are not part of this model.
