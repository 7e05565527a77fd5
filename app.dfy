/**
 * The course list of the GPA page: add, update and delete, and the filter
 * that picks the courses the GPA is computed over.
 */
module App {
  import opened Types
  import opened GpaCalculator

  /** The blank course the list starts with and that "Add Course" appends. */
  const DefaultCourse: Course := Course("", "", 3.0, false)

  /** `courses.filter((_, i) => i !== index)`: every course except the one at position index. */
  function Without(s: seq<Course>, index: int): (r: seq<Course>)
    ensures |r| == if 0 <= index < |s| then |s| - 1 else |s|
    ensures forall c :: c in r ==> c in s
  {
    if s == [] then []
    else if |s| - 1 == index then Without(s[..|s| - 1], index)
    else Without(s[..|s| - 1], index) + [s[|s| - 1]]
  }

  /** Deleting a position in range removes exactly that course and keeps the others in order. */
  lemma {:induction false} WithoutInRange(s: seq<Course>, index: int)
    requires 0 <= index < |s|
    ensures Without(s, index) == s[..index] + s[index + 1..]
    decreases |s|
  {
    var n := |s| - 1;
    if index == n {
      WithoutOutOfRange(s[..n], index);
    } else {
      WithoutInRange(s[..n], index);
      assert s[..n][..index] == s[..index];
      assert s[..n][index + 1..] + [s[n]] == s[index + 1..];
    }
  }

  /** Deleting a position out of range changes nothing. */
  lemma {:induction false} WithoutOutOfRange(s: seq<Course>, index: int)
    requires index < 0 || index >= |s|
    ensures Without(s, index) == s
    decreases |s|
  {
    if s != [] {
      WithoutOutOfRange(s[..|s| - 1], index);
      assert s[..|s| - 1] + [s[|s| - 1]] == s;
    }
  }

  /** `course.grade && course.credits > 0`: a course with a grade chosen and positive credits. */
  predicate IsGraded(c: Course)
  {
    c.grade != "" && c.credits > 0.0
  }

  /** The courses the GPA is computed over, in their order in the list. */
  function GradedCourses(s: seq<Course>): (r: seq<Course>)
    ensures |r| <= |s|
    ensures forall c :: c in r ==> c in s
  {
    if s == [] then []
    else if IsGraded(s[|s| - 1]) then GradedCourses(s[..|s| - 1]) + [s[|s| - 1]]
    else GradedCourses(s[..|s| - 1])
  }

  /** The filter works piece by piece: filtering a concatenation concatenates the filtered parts. */
  lemma {:induction false} GradedCoursesAppend(u: seq<Course>, v: seq<Course>)
    ensures GradedCourses(u + v) == GradedCourses(u) + GradedCourses(v)
    decreases |v|
  {
    if v == [] {
      assert u + v == u;
    } else {
      assert (u + v)[..|u + v| - 1] == u + v[..|v| - 1];
      GradedCoursesAppend(u, v[..|v| - 1]);
    }
  }

  /** A course is kept, as often as it occurs, exactly when it counts; every other course is dropped. */
  lemma {:induction false} GradedCoursesOccurrences(s: seq<Course>, c: Course)
    ensures multiset(GradedCourses(s))[c] == if IsGraded(c) then multiset(s)[c] else 0
    decreases |s|
  {
    if s != [] {
      GradedCoursesOccurrences(s[..|s| - 1], c);
      assert s == s[..|s| - 1] + [s[|s| - 1]];
    }
  }

  /** Every course that is kept has a grade and positive credits. */
  lemma {:induction false} GradedCoursesAreGraded(s: seq<Course>)
    ensures forall i :: 0 <= i < |GradedCourses(s)| ==> IsGraded(GradedCourses(s)[i])
    decreases |s|
  {
    if s != [] {
      GradedCoursesAreGraded(s[..|s| - 1]);
    }
  }

  /** Courses with positive credits have a positive credit total, unless there are none. */
  lemma {:induction false} PositiveTotal(s: seq<Course>)
    requires forall i :: 0 <= i < |s| ==> s[i].credits > 0.0
    ensures s != [] ==> TotalCredits(s) > 0.0
    ensures NonNegativeCredits(s)
    decreases |s|
  {
    if s != [] {
      var n := |s| - 1;
      PositiveTotal(s[..n]);
      assert TotalCredits(s) == TotalCredits(s[..n]) + s[n].credits;
      assert TotalCredits(s[..n]) >= 0.0 by {
        if s[..n] != [] {
          assert TotalCredits(s[..n]) > 0.0;
        }
      }
    }
  }

  /** The filtered list always has a GPA, and it lies on the 4.0 and 5.0 scales. */
  lemma GradedGpaBounds(s: seq<Course>)
    ensures HasGpa(GradedCourses(s))
    ensures var g := GpaOf(GradedCourses(s));
      0.0 <= g.unweightedGpa <= g.weightedGpa && g.unweightedGpa <= 4.0 && g.weightedGpa <= 5.0
      && g.totalCredits >= 0.0
  {
    var graded := GradedCourses(s);
    GradedCoursesAreGraded(s);
    PositiveTotal(graded);
    if graded != [] {
      GpaBounds(graded);
    }
  }

  /** The state of the GPA page: its list of courses. */
  class CourseList {
    var courses: seq<Course>

    /** The page starts with one blank course. */
    constructor ()
      ensures courses == [DefaultCourse]
    {
      courses := [DefaultCourse];
    }

    /** handleAddCourse: one blank course is appended. */
    method AddCourse()
      modifies this
      ensures courses == old(courses) + [DefaultCourse]
      ensures |courses| == |old(courses)| + 1 && courses[..|old(courses)|] == old(courses)
      ensures courses[|courses| - 1] == DefaultCourse
    {
      courses := courses + [DefaultCourse];
    }

    /** handleUpdateCourse: the course at index is replaced and nothing else changes. */
    method UpdateCourse(index: int, updatedCourse: Course)
      requires 0 <= index < |courses|
      modifies this
      ensures courses == old(courses)[index := updatedCourse]
      ensures |courses| == |old(courses)| && courses[index] == updatedCourse
      ensures forall j :: 0 <= j < |courses| && j != index ==> courses[j] == old(courses)[j]
    {
      var newCourses := courses;
      newCourses := newCourses[index := updatedCourse];
      courses := newCourses;
    }

    /** handleDeleteCourse: the course at index, if there is one, is removed. */
    method DeleteCourse(index: int)
      modifies this
      ensures courses == Without(old(courses), index)
      ensures 0 <= index < |old(courses)| ==> courses == old(courses)[..index] + old(courses)[index + 1..]
      ensures (index < 0 || index >= |old(courses)|) ==> courses == old(courses)
    {
      if 0 <= index < |courses| {
        WithoutInRange(courses, index);
      } else {
        WithoutOutOfRange(courses, index);
      }
      courses := Without(courses, index);
    }

    /** The GPA shown on the page: calculateGPA over the graded courses. */
    method Gpa() returns (g: GpaCalculation)
      ensures HasGpa(GradedCourses(courses))
      ensures g == GpaOf(GradedCourses(courses))
      ensures 0.0 <= g.unweightedGpa <= g.weightedGpa && g.unweightedGpa <= 4.0 && g.weightedGpa <= 5.0
    {
      GradedGpaBounds(courses);
      g := CalculateGpa(GradedCourses(courses));
    }
  }
}
