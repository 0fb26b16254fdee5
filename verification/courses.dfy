/** The two course records: `Course` of the variants that track attendance,
    with its attendance log and mandatory session count, and `PlainCourse` of
    the variant without attendance. Both grade their `assignments` with the
    rules of module Grading. */
module Courses {
  import opened Outcomes
  import opened Grades
  import opened Grading

  /** One `(date, status)` entry of the attendance log; the status is not
      validated. */
  datatype AttendanceEntry = AttendanceEntry(date: string, status: string)

  const PRESENT: string := "Present"

  datatype Course = Course(name: string, assignments: seq<Assignment>,
                           attendance: seq<AttendanceEntry>, totalSessions: int)

  datatype PlainCourse = PlainCourse(name: string, assignments: seq<Assignment>)

  /** `add_assignment`: appends one item; nothing else changes. */
  function AddAssignment(c: Course, a: Assignment): (c': Course)
    ensures |c'.assignments| == |c.assignments| + 1
    ensures c'.assignments[..|c.assignments|] == c.assignments && c'.assignments[|c.assignments|] == a
    ensures c'.name == c.name && c'.attendance == c.attendance && c'.totalSessions == c.totalSessions
  {
    c.(assignments := c.assignments + [a])
  }

  /** `add_assignment` of the variant without attendance. */
  function AddPlainAssignment(c: PlainCourse, a: Assignment): (c': PlainCourse)
    ensures |c'.assignments| == |c.assignments| + 1
    ensures c'.assignments[..|c.assignments|] == c.assignments && c'.assignments[|c.assignments|] == a
    ensures c'.name == c.name
  {
    c.(assignments := c.assignments + [a])
  }

  /** `mark_attendance`: appends one log entry; nothing else changes. */
  function MarkAttendance(c: Course, date: string, status: string): (c': Course)
    ensures |c'.attendance| == |c.attendance| + 1
    ensures c'.attendance[..|c.attendance|] == c.attendance
    ensures c'.attendance[|c.attendance|] == AttendanceEntry(date, status)
    ensures c'.name == c.name && c'.assignments == c.assignments && c'.totalSessions == c.totalSessions
  {
    c.(attendance := c.attendance + [AttendanceEntry(date, status)])
  }

  /** The number of log entries whose status is exactly "Present". */
  function PresentCount(log: seq<AttendanceEntry>): (n: nat)
    ensures n <= |log|
  {
    if log == [] then 0
    else (if log[0].status == PRESENT then 1 else 0) + PresentCount(log[1..])
  }

  function Statuses(log: seq<AttendanceEntry>): (r: seq<string>)
    ensures |r| == |log|
    ensures forall i :: 0 <= i < |log| ==> r[i] == log[i].status
  {
    if log == [] then [] else [log[0].status] + Statuses(log[1..])
  }

  /** The present count is the number of occurrences of "Present" among the
      statuses: no other status, however spelled, is counted. */
  lemma {:induction false} PresentCountIsOccurrences(log: seq<AttendanceEntry>)
    ensures PresentCount(log) == multiset(Statuses(log))[PRESENT]
  {
    if log != [] {
      PresentCountIsOccurrences(log[1..]);
      assert Statuses(log) == [log[0].status] + Statuses(log[1..]);
    }
  }

  lemma {:induction false} PresentCountAppend(xs: seq<AttendanceEntry>, ys: seq<AttendanceEntry>)
    ensures PresentCount(xs + ys) == PresentCount(xs) + PresentCount(ys)
  {
    if xs == [] {
      assert xs + ys == ys;
    } else {
      assert (xs + ys)[1..] == xs[1..] + ys;
      PresentCountAppend(xs[1..], ys);
    }
  }

  /** Marking a session raises the present count by one exactly when the
      status is "Present". */
  lemma {:induction false} MarkAttendanceCount(c: Course, date: string, status: string)
    ensures PresentCount(MarkAttendance(c, date, status).attendance)
            == PresentCount(c.attendance) + (if status == PRESENT then 1 else 0)
  {
    var e := AttendanceEntry(date, status);
    PresentCountAppend(c.attendance, [e]);
    assert [e][1..] == [];
  }

  /** `calculate_attendance`: present count over the mandatory session count,
      as a percentage. There is no zero guard: a course with 0 sessions
      raises ZeroDivisionError. */
  function CalculateAttendance(c: Course): (r: Result<real>)
    ensures r.Err? <==> c.totalSessions == 0
    ensures r.Ok? ==> r.value * (c.totalSessions as real) == (PresentCount(c.attendance) as real) * 100.0
  {
    if c.totalSessions == 0 then Err(DivisionByZero)
    else Ok((PresentCount(c.attendance) as real) / (c.totalSessions as real) * 100.0)
  }

  /** The percentage is not capped: more Present entries than sessions give
      more than 100. */
  lemma AttendanceCanExceedFull(c: Course)
    requires 0 < c.totalSessions < PresentCount(c.attendance)
    ensures CalculateAttendance(c).Ok? && CalculateAttendance(c).value > 100.0
  {
    var p, n := PresentCount(c.attendance) as real, c.totalSessions as real;
    var v := CalculateAttendance(c).value;
    assert v * n == p * 100.0;
    assert p * 100.0 > n * 100.0;
  }

  /** Adding an assignment changes a group's totals by exactly that item's
      weight and weighted score when it has the group's type, and not at all
      otherwise. */
  lemma {:induction false} AddAssignmentGroupScore(c: Course, a: Assignment, t: string)
    ensures TypeOf(a) != t ==>
      CalculateGroupScore(AddAssignment(c, a).assignments, t) == CalculateGroupScore(c.assignments, t)
    ensures TypeOf(a) == t ==>
      CalculateGroupScore(AddAssignment(c, a).assignments, t)
      == GroupTotals(CalculateGroupScore(c.assignments, t).weight + a.weight,
                     CalculateGroupScore(c.assignments, t).weightedScore + GetWeightedScore(a))
  {
    GroupScoreInsert(c.assignments, a, [], t);
    assert c.assignments + [a] + [] == AddAssignment(c, a).assignments;
    assert c.assignments + [] == c.assignments;
  }
}
