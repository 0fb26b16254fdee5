/** Worked cases of the code's thresholds and formulas: the weighted score,
    the inclusive pass marks, the strict resubmission bound, both sort orders,
    the zero-guarded GPA and the unguarded attendance ratio. The inputs are
    small values chosen to sit on or near each threshold. */
module Examples {
  import opened Outcomes
  import opened Grades
  import opened Grading
  import opened Transcript
  import opened Courses
  import opened Students

  /** "Python - Inheritance", 40.59 at weight 20, earns 8.118 points. */
  lemma WeightedScoreExample()
    ensures GetWeightedScore(Assignment("Python - Inheritance", 40.59, 20.0, Formative)) == 8.118
  {
  }

  /** Formative 40% and Summative 25% pass; both marks are inclusive, so
      exactly 30% and 20% pass too, and 29.99% formative does not. */
  lemma ProgressionExamples()
    ensures CheckProgression([Assignment("F", 40.0, 40.0, Formative), Assignment("S", 25.0, 20.0, Summative)])
            == Progression(true, 40.0, 25.0)
    ensures CheckProgression([Assignment("F", 30.0, 10.0, Formative), Assignment("S", 20.0, 10.0, Summative)])
            == Progression(true, 30.0, 20.0)
    ensures !CheckProgression([Assignment("F", 29.99, 10.0, Formative), Assignment("S", 90.0, 10.0, Summative)]).passed
  {
  }

  /** 49 qualifies for resubmission, 50 does not, and a Summative item never
      does. */
  lemma ResubmissionExample()
    ensures GetResubmissionCandidates([Assignment("X", 49.0, 10.0, Formative),
                                       Assignment("Y", 50.0, 10.0, Formative),
                                       Assignment("Z", 10.0, 10.0, Summative)]) == ["X"]
  {
  }

  /** Scores 90, 40.59, 100 sort to 40.59, 90, 100 ascending. */
  lemma AscendingTranscriptExample(a: Assignment, b: Assignment, c: Assignment)
    requires a == Assignment("A", 90.0, 10.0, Formative)
    requires b == Assignment("B", 40.59, 20.0, Formative)
    requires c == Assignment("C", 100.0, 30.0, Summative)
    ensures GenerateTranscript([a, b, c], "ascending") == [b, a, c]
  {
  }

  /** The same scores sort to 100, 90, 40.59 descending. */
  lemma DescendingTranscriptExample(a: Assignment, b: Assignment, c: Assignment)
    requires a == Assignment("A", 90.0, 10.0, Formative)
    requires b == Assignment("B", 40.59, 20.0, Formative)
    requires c == Assignment("C", 100.0, 30.0, Summative)
    ensures GenerateTranscript([a, b, c], "descending") == [c, a, b]
  {
  }

  /** A student with no course has GPA 0. */
  lemma EmptyGpaExample()
    ensures CalculateGpa(Student("A", "a@example.org", [])) == 0.0
  {
  }

  /** Items (Formative 85, weight 15), (Summative 72, 20), (Summative 90, 20):
      45.15 weighted points over weight 55, a GPA of 45.15 / 55 * 100. */
  lemma GpaExample()
    ensures CalculateGpa(Student("A", "a@example.org",
              [Course("C", [Assignment("F", 85.0, 15.0, Formative),
                            Assignment("S1", 72.0, 20.0, Summative),
                            Assignment("S2", 90.0, 20.0, Summative)], [], 7)])) == 4515.0 / 55.0
  {
  }

  /** Seven Present entries over seven sessions is 100%; a course with 0
      sessions makes the attendance computation fail. */
  lemma AttendanceExamples()
    ensures var e := AttendanceEntry("Sep 16", "Present");
            CalculateAttendance(Course("C", [], [e, e, e, e, e, e, e], 7)) == Ok(100.0)
    ensures CalculateAttendance(Course("C", [], [AttendanceEntry("Sep 16", "Present")], 0)) == Err(DivisionByZero)
  {
  }
}
