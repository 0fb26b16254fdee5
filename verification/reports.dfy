/** The data decisions of the two report generators, with the text layout
    left out: which sections and rows a report holds, in which order, and
    which notice each section shows. `GenerateReport` is the variant with
    attendance and GPA; `GeneratePlainReport` the variant without. */
module Reports {
  import opened Outcomes
  import opened Grades
  import opened Grading
  import opened Transcript
  import opened Courses
  import opened Students

  /** Below this attendance percentage the report prints a warning. */
  const ATTENDANCE_WARNING_BELOW: real := 75.0

  /** "No Resubmissions Needed." or "Eligible for Resubmission: <names>". */
  datatype ResubmissionNotice = NoResubmissionsNeeded | EligibleForResubmission(names: seq<string>)

  function NoticeFor(candidates: seq<string>): ResubmissionNotice
  {
    if candidates == [] then NoResubmissionsNeeded else EligibleForResubmission(candidates)
  }

  /** One course's part of the report with attendance. */
  datatype CourseSection = CourseSection(
    course: string,
    progression: Progression,
    resubmission: ResubmissionNotice,
    attendance: real,
    attendanceWarning: bool,
    transcript: seq<Assignment>)

  /** One row of the detailed table: course, assignment, score, weight and
      weighted score. */
  datatype Row = Row(course: string, assignment: string, score: real, weight: real, weightedScore: real)

  datatype Report = Report(
    student: string,
    email: string,
    sections: seq<CourseSection>,
    gpa: real,
    detailed: seq<Row>)

  /** What a course section states about course `c`. */
  ghost predicate DescribesCourse(sec: CourseSection, c: Course, sortOrder: string)
  {
    && sec.course == c.name
    && sec.progression == CheckProgression(c.assignments)
    && (sec.resubmission.NoResubmissionsNeeded? <==> GetResubmissionCandidates(c.assignments) == [])
    && (sec.resubmission.EligibleForResubmission? ==>
          sec.resubmission.names == GetResubmissionCandidates(c.assignments))
    && CalculateAttendance(c) == Ok(sec.attendance)
    && (sec.attendanceWarning <==> sec.attendance < ATTENDANCE_WARNING_BELOW)
    && sec.transcript == GenerateTranscript(c.assignments, sortOrder)
  }

  /** The section of one course; the attendance percentage raises on a
      course with 0 sessions, which aborts the whole report. */
  function SectionFor(c: Course, sortOrder: string): (r: Result<CourseSection>)
    ensures r.Err? <==> c.totalSessions == 0
    ensures r.Ok? ==> DescribesCourse(r.value, c, sortOrder)
  {
    var progression := CheckProgression(c.assignments);
    var notice := NoticeFor(GetResubmissionCandidates(c.assignments));
    match CalculateAttendance(c)
    case Err(e) => Err(e)
    case Ok(attendance) =>
      Ok(CourseSection(c.name, progression, notice, attendance,
                       attendance < ATTENDANCE_WARNING_BELOW,
                       GenerateTranscript(c.assignments, sortOrder)))
  }

  /** The sections of all courses, in course order, or the first error. */
  function Sections(courses: seq<Course>, sortOrder: string): (r: Result<seq<CourseSection>>)
    ensures r.Ok? <==> forall i :: 0 <= i < |courses| ==> courses[i].totalSessions != 0
    ensures r.Ok? ==> |r.value| == |courses|
    ensures r.Ok? ==> forall i :: 0 <= i < |courses| ==> DescribesCourse(r.value[i], courses[i], sortOrder)
  {
    if courses == [] then Ok([])
    else
      match SectionFor(courses[0], sortOrder)
      case Err(e) => Err(e)
      case Ok(first) =>
        match Sections(courses[1..], sortOrder)
        case Err(e) => Err(e)
        case Ok(rest) => Ok([first] + rest)
  }

  /** The row is the detailed-table entry of assignment `a`. */
  predicate RowOf(row: Row, a: Assignment)
  {
    row.assignment == a.name && row.score == a.score && row.weight == a.weight
    && row.weightedScore == GetWeightedScore(a)
  }

  /** One row per assignment of the course, in insertion order. */
  function CourseRows(c: Course): (rows: seq<Row>)
    ensures |rows| == |c.assignments|
    ensures forall k :: 0 <= k < |rows| ==> rows[k].course == c.name && RowOf(rows[k], c.assignments[k])
  {
    seq(|c.assignments|, k requires 0 <= k < |c.assignments| =>
      var a := c.assignments[k];
      Row(c.name, a.name, a.score, a.weight, GetWeightedScore(a)))
  }

  /** The detailed table: one row per assignment, course order first, then
      insertion order within each course. */
  function DetailedRows(courses: seq<Course>): (rows: seq<Row>)
    ensures |rows| == |AllAssignments(courses)|
    ensures forall k :: 0 <= k < |rows| ==> RowOf(rows[k], AllAssignments(courses)[k])
  {
    if courses == [] then []
    else
      var first, rest := CourseRows(courses[0]), DetailedRows(courses[1..]);
      var all := AllAssignments(courses);
      assert all == courses[0].assignments + AllAssignments(courses[1..]);
      assert forall k :: |first| <= k < |all| ==> all[k] == AllAssignments(courses[1..])[k - |first|];
      first + rest
  }

  lemma {:induction false} DetailedRowsAppend(cs: seq<Course>, ds: seq<Course>)
    ensures DetailedRows(cs + ds) == DetailedRows(cs) + DetailedRows(ds)
  {
    if cs == [] {
      assert cs + ds == ds;
    } else {
      assert (cs + ds)[1..] == cs[1..] + ds;
      DetailedRowsAppend(cs[1..], ds);
    }
  }

  /** The rows of the `i`-th course form one contiguous block of the
      detailed table, after the rows of the courses before it; each row of
      that block names that course. */
  lemma {:induction false} DetailedRowsBlock(courses: seq<Course>, i: nat)
    requires i < |courses|
    ensures var lo, hi := |AllAssignments(courses[..i])|, |AllAssignments(courses[..i + 1])|;
            lo <= hi <= |DetailedRows(courses)| && DetailedRows(courses)[lo..hi] == CourseRows(courses[i])
  {
    var before, c, after := courses[..i], courses[i], courses[i + 1..];
    assert courses[..i + 1] == before + [c];
    assert courses == before + [c] + after;
    assert DetailedRows([c]) == CourseRows(c) + DetailedRows([]);
    assert AllAssignments([c]) == c.assignments + AllAssignments([]);
    DetailedRowsAppend(before + [c], after);
    DetailedRowsAppend(before, [c]);
    AllAssignmentsAppend(before + [c], after);
    AllAssignmentsAppend(before, [c]);
  }

  /** `rows` lists the rows of each course as one block, in course order:
      the block of course `i` starts after the assignments of the courses
      before it and is exactly that course's rows. */
  predicate CourseBlocks(rows: seq<Row>, courses: seq<Course>)
  {
    forall i :: 0 <= i < |courses| ==>
      var lo, hi := |AllAssignments(courses[..i])|, |AllAssignments(courses[..i + 1])|;
      lo <= hi <= |rows| && rows[lo..hi] == CourseRows(courses[i])
  }

  lemma {:induction false} DetailedRowsBlocks(courses: seq<Course>)
    ensures CourseBlocks(DetailedRows(courses), courses)
  {
    forall i | 0 <= i < |courses|
      ensures var lo, hi := |AllAssignments(courses[..i])|, |AllAssignments(courses[..i + 1])|;
              lo <= hi <= |DetailedRows(courses)| && DetailedRows(courses)[lo..hi] == CourseRows(courses[i])
    {
      DetailedRowsBlock(courses, i);
    }
  }

  /** `generate_report` of the variant with attendance. It fails exactly
      when some course has 0 mandatory sessions; otherwise it holds one
      section per course in course order, the GPA, and the detailed table. */
  function GenerateReport(s: Student<Course>, sortOrder: string): (r: Result<Report>)
    ensures r.Ok? <==> forall i :: 0 <= i < |s.courses| ==> s.courses[i].totalSessions != 0
    ensures r.Ok? ==> r.value.student == s.name && r.value.email == s.email
    ensures r.Ok? ==> |r.value.sections| == |s.courses|
    ensures r.Ok? ==> forall i :: 0 <= i < |s.courses| ==>
                        DescribesCourse(r.value.sections[i], s.courses[i], sortOrder)
    ensures r.Ok? ==> r.value.gpa == WeightedMean(AllAssignments(s.courses))
    ensures r.Ok? ==> |r.value.detailed| == |AllAssignments(s.courses)|
    ensures r.Ok? ==> forall k :: 0 <= k < |r.value.detailed| ==>
                        RowOf(r.value.detailed[k], AllAssignments(s.courses)[k])
    ensures r.Ok? ==> CourseBlocks(r.value.detailed, s.courses)
  {
    DetailedRowsBlocks(s.courses);
    match Sections(s.courses, sortOrder)
    case Err(e) => Err(e)
    case Ok(sections) => Ok(Report(s.name, s.email, sections, CalculateGpa(s), DetailedRows(s.courses)))
  }

  /** One course's part of the report without attendance. */
  datatype PlainSection = PlainSection(
    course: string,
    progression: Progression,
    resubmission: ResubmissionNotice,
    transcript: seq<Assignment>)

  datatype PlainReport = PlainReport(student: string, email: string, sections: seq<PlainSection>)

  function PlainSectionFor(c: PlainCourse, sortOrder: string): PlainSection
  {
    PlainSection(c.name, CheckProgression(c.assignments),
                 NoticeFor(GetResubmissionCandidates(c.assignments)),
                 GenerateTranscript(c.assignments, sortOrder))
  }

  /** `generate_report` of the variant without attendance: one section per
      course, in course order; a section says "No Resubmissions Needed."
      exactly when the course has no resubmission candidate. */
  function GeneratePlainReport(s: Student<PlainCourse>, sortOrder: string): (r: PlainReport)
    ensures r.student == s.name && r.email == s.email
    ensures |r.sections| == |s.courses|
    ensures forall i :: 0 <= i < |s.courses| ==>
              && r.sections[i].course == s.courses[i].name
              && r.sections[i].progression == CheckProgression(s.courses[i].assignments)
              && (r.sections[i].resubmission.NoResubmissionsNeeded?
                  <==> GetResubmissionCandidates(s.courses[i].assignments) == [])
              && (r.sections[i].resubmission.EligibleForResubmission? ==>
                  r.sections[i].resubmission.names == GetResubmissionCandidates(s.courses[i].assignments))
              && r.sections[i].transcript == GenerateTranscript(s.courses[i].assignments, sortOrder)
  {
    PlainReport(s.name, s.email, seq(|s.courses|, i requires 0 <= i < |s.courses| => PlainSectionFor(s.courses[i], sortOrder)))
  }
}
