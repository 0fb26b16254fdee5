/** The student record and the cross-course GPA. */
module Students {
  import opened Grades
  import opened Courses

  /** A student with the courses added so far, in insertion order. The
      course type is the variant's course record. */
  datatype Student<C> = Student(name: string, email: string, courses: seq<C>)

  /** `add_course`: appends one course; nothing else changes. */
  function AddCourse<C>(s: Student<C>, c: C): (s': Student<C>)
    ensures |s'.courses| == |s.courses| + 1
    ensures s'.courses[..|s.courses|] == s.courses && s'.courses[|s.courses|] == c
    ensures s'.name == s.name && s'.email == s.email
  {
    s.(courses := s.courses + [c])
  }

  /** Every assignment of every course: course order, then insertion order
      within a course (the order of the nested loops over courses and
      assignments). */
  function AllAssignments(courses: seq<Course>): seq<Assignment>
  {
    if courses == [] then [] else courses[0].assignments + AllAssignments(courses[1..])
  }

  lemma {:induction false} AllAssignmentsAppend(cs: seq<Course>, ds: seq<Course>)
    ensures AllAssignments(cs + ds) == AllAssignments(cs) + AllAssignments(ds)
  {
    if cs == [] {
      assert cs + ds == ds;
    } else {
      assert (cs + ds)[1..] == cs[1..] + ds;
      AllAssignmentsAppend(cs[1..], ds);
    }
  }

  /** `calculate_gpa`: the total weighted score over the total weight of all
      assignments of all courses, as a percentage, 0 when the weights add up
      to 0. That is the weight-averaged mean of every score. */
  function CalculateGpa(s: Student<Course>): (gpa: real)
    ensures gpa == WeightedMean(AllAssignments(s.courses))
    ensures Sum(AllAssignments(s.courses), WeightOf) == 0.0 ==> gpa == 0.0
  {
    var all := AllAssignments(s.courses);
    PercentIsWeightedMean(all);
    Percent(Sum(all, GetWeightedScore), Sum(all, WeightOf))
  }

  /** With scores on the 0..100 scale and non-negative weights in every
      course, the GPA is a percentage in 0..100. */
  lemma {:induction false} GpaBounds(s: Student<Course>)
    requires forall i :: 0 <= i < |s.courses| ==> InRange(s.courses[i].assignments)
    ensures 0.0 <= CalculateGpa(s) <= 100.0
  {
    AllInRange(s.courses);
    WeightedMeanBounds(AllAssignments(s.courses), 0.0, 100.0);
  }

  lemma {:induction false} AllInRange(courses: seq<Course>)
    requires forall i :: 0 <= i < |courses| ==> InRange(courses[i].assignments)
    ensures InRange(AllAssignments(courses))
  {
    if courses != [] {
      AllInRange(courses[1..]);
      var xs, ys := courses[0].assignments, AllAssignments(courses[1..]);
      var zs: seq<Assignment> := xs + ys;
      assert InRange(xs);
      forall i | 0 <= i < |zs|
        ensures 0.0 <= zs[i].score <= 100.0 && 0.0 <= zs[i].weight
      {
        if i >= |xs| {
          assert zs[i] == ys[i - |xs|];
        }
      }
    }
  }

  /** Adding a course adds its weight and weighted-score totals to the
      student's running totals. */
  lemma {:induction false} AddCourseTotals(s: Student<Course>, c: Course)
    ensures Sum(AllAssignments(AddCourse(s, c).courses), WeightOf)
            == Sum(AllAssignments(s.courses), WeightOf) + Sum(c.assignments, WeightOf)
    ensures Sum(AllAssignments(AddCourse(s, c).courses), GetWeightedScore)
            == Sum(AllAssignments(s.courses), GetWeightedScore) + Sum(c.assignments, GetWeightedScore)
  {
    AllAssignmentsAppend(s.courses, [c]);
    assert AllAssignments([c]) == c.assignments + AllAssignments([]);
    assert c.assignments + [] == c.assignments;
    SumAppend(AllAssignments(s.courses), c.assignments, WeightOf);
    SumAppend(AllAssignments(s.courses), c.assignments, GetWeightedScore);
  }
}
