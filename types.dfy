/**
 * The records shared by the GPA calculator: a course as entered by the user,
 * the result of a GPA computation and the result of a projection.
 * Numbers are modelled as exact reals.
 */
module Types {
  /** One row of the course list. */
  datatype Course = Course(name: string, grade: string, credits: real, isWeighted: bool)

  /** The GPA over a list of courses, weighted (honours bonus) and unweighted. */
  datatype GpaCalculation = GpaCalculation(weightedGpa: real, unweightedGpa: real, totalCredits: real)

  /** What GPA the remaining credits need for a target GPA to be reached. */
  datatype GpaProjection = GpaProjection(
    currentGpa: real,
    targetGpa: real,
    requiredGpa: real,
    remainingCredits: real,
    isAchievable: bool)
}
