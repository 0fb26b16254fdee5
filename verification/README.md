# Grade aggregation model

A Dafny model of the grade-tracking core shared by the three variants of the
student-report program (`joereport.py`, `j.nishimwe@alustudent.com_il.py`,
`joseph.py`): the `Assignment`, `Course` and `Student` classes and the data
decisions their report generators make. Each class is an immutable datatype.
Each method is a pure function. The properties the code and its docstrings
promise are proved as contracts and lemmas.

- `outcomes.dfy` (module `Outcomes`): `Result`. It stands for the one exception
  the core can raise, the `ZeroDivisionError` of `calculate_attendance`.
- `grades.dfy` (module `Grades`): `Assignment` and its `type` tag, the
  weighted score, sums over items, the zero-guarded percentage, and the
  weight-averaged mean of the scores, which serves as the reference definition.
- `sequences.dfy` (module `Sequences`): the subsequence relation that every
  filter keeps.
- `grading.dfy` (module `Grading`): the group totals, the progression check
  and the resubmission candidates. They are defined over a course's list of
  assignments, because all three variants compute them the same way.
- `transcript.dfy` (module `Transcript`): the stable sort by score.
- `courses.dfy` (module `Courses`): there are two course records. `Course`
  has an attendance log and a mandatory session count; `PlainCourse`, from
  `joseph.py`, has neither.
- `students.dfy` (module `Students`): the student record and the cross-course GPA.
- `reports.dfy` (module `Reports`): what the report generators decide.
  This covers the sections and their order, the notices, the attendance
  warning and the detailed-table rows, but not the text layout.
- `examples.dfy` (module `Examples`): worked cases of the code's thresholds
  and formulas, on small inputs chosen to sit on or near each threshold.

Modelling choices:

- Scores and weights are exact `real`s. The sources use Python numbers, and
  the model makes no attempt to match floating-point rounding.
- `type` is the tag `Formative | Summative | Other(text)`. Group filtering
  compares the tag's string (`Label`) with the requested group name. That is
  exactly the source's `assignment.type == group_type`, even for an `Other`
  that spells a category name. `KindOf` builds the canonical tag from a string.
- The code guards the group percentages and the GPA (`x / w * 100 if w else 0`).
  That guard is the one helper `Grades.Percent`. Python's truthiness test
  `if w` is `w != 0`.
- `calculate_attendance` has no guard. A course with `total_sessions == 0`
  yields `Err(DivisionByZero)`, and so does the whole `generate_report` of
  `joereport.py`, because the exception escapes it. A negative session count
  divides normally.
- `sorted(..., reverse=True)` is stable with the comparison reversed. Tied
  scores keep insertion order in both directions. The descending transcript
  is therefore not the ascending one reversed. `DescendingKeepsTieOrder`
  shows the difference; `DescendingReversesWithoutTies` shows they agree when
  no scores tie.
- Only the exact string "descending" sorts descending. Any other
  `sort_order`, including "Descending", sorts ascending, because
  `joereport.py:65` tests only `sort_order == "descending"`.

## Model

| member | source | states |
|---|---|---|
| Grades.KindOf | joereport.py:8-13 | The tag built from a `type` string gives back that string; it is `Other` exactly when the string is neither "Formative" nor "Summative". |
| Grades.LabelInjective | joereport.py:8-13 | On canonical tags, equal type strings mean equal tags, and parsing a tag's string returns the tag. So matching on the variant agrees with comparing `type` strings. |
| Grades.GetWeightedScore | joereport.py:15-16 | The weighted score times 100 is score times weight. For a score in 0..100 and a non-negative weight, it lies in 0..weight. Also `j.nishimwe@alustudent.com_il.py:17-23` and `joseph.py:10-11`. |
| Grades.Percent | joereport.py:51-52 | The guarded ratio `part / whole * 100 if whole else 0`: 0 for a zero denominator, and otherwise a value that times `whole` gives `part * 100`. |
| Grades.SumPermutation | joereport.py:41-44 | A total over items does not depend on their order. |
| Grades.SumWeightedScores | joereport.py:44 | The total of the weighted scores is the total of score times weight, divided by 100. |
| Grades.PercentIsWeightedMean | joereport.py:51 | The guarded percentage of the weighted-score total over the weight total equals the weight-averaged mean of the scores. |
| Grades.WeightedMeanBounds | joereport.py:51-52 | When no weight is negative, a weight-averaged mean lies in the range of the scores averaged, and it is 0 when the weights sum to 0. |
| Grading.OfType | joereport.py:42 | The items whose `type` equals the requested string: exactly those, as a subsequence of insertion order. |
| Grading.Ungrouped | joereport.py:42 | The items of neither category: exactly those, in insertion order. |
| Grading.OfTypeAppend | joereport.py:41-42 | Selecting by type commutes with concatenating assignment lists. |
| Grading.OfTypeCount | joereport.py:42 | An item occurs among the selected ones as often as in the whole list if it has the type, and never otherwise. |
| Grading.OfTypePermutation | joereport.py:41-42 | Reordering the assignments reorders the selection and leaves its multiset unchanged. |
| Grading.UngroupedCount | joereport.py:42 | An item occurs among the ungrouped ones as often as in the whole list if its type is neither category, and never otherwise. |
| Grading.CategoriesPartition | j.nishimwe@alustudent.com_il.py:66-79 | The Formative items, the Summative items and the rest together are the assignment list, as a multiset. |
| Grading.CalculateGroupScore | joereport.py:38-45 | The pair is the weight total and the weighted-score total over exactly the items whose `type` equals the requested string. Also `joseph.py:22-29` and `j.nishimwe@alustudent.com_il.py:66-79`. |
| Grading.GroupScorePermutation | joereport.py:38-45 | Group totals are the same for every order in which the assignments were added. |
| Grading.GroupScoreInsert | joseph.py:22-29 | An item of another type, wherever it stands, changes neither total. An item of the group's type adds exactly its weight and its weighted score. |
| Grading.GroupTotalsAddUp | j.nishimwe@alustudent.com_il.py:66-79 | The Formative and Summative totals plus those of the ungrouped items are the course totals. With non-negative weights, the two groups' weights together are at most the course's total weight. |
| Grading.CheckProgression | joereport.py:47-58 | Each group total is the weight-averaged mean of that group's scores, and it is 0 when the group's weight is 0. `passed` holds iff formative ≥ 30 and summative ≥ 20, both inclusive. Also `j.nishimwe@alustudent.com_il.py:81-98` and `joseph.py:31-42`. |
| Grading.NoSummativeNeverPasses | joereport.py:49-57 | A course without a Summative item has a summative total of 0, so it never passes. |
| Grading.ProgressionBounds | joereport.py:51-52 | With scores in 0..100 and non-negative weights, both group totals lie in 0..100. |
| Grading.GetResubmissionCandidates | joereport.py:60-61 | The candidate names form a subsequence of the assignment names in insertion order. Also `joseph.py:44-45` and `j.nishimwe@alustudent.com_il.py:100-106`. |
| Grading.CandidateMembership | joereport.py:61 | A name is a candidate iff some Formative item with score strictly below 50 carries it. |
| Grading.CandidatesNameEligible | joereport.py:61 | The candidates are the names of the Formative items scoring below 50, one entry per item and in the same order. |
| Grading.Eligible | j.nishimwe@alustudent.com_il.py:100-106 | An item appears iff it is a Formative item scoring below 50, and the result is a subsequence of insertion order. How often each item appears is fixed by `Grading.EligibleCount`. |
| Grading.EligibleCount | joereport.py:61 | Each Formative item scoring below 50 appears as often as it occurs in the course, duplicates included; no other item appears. |
| Grading.CandidatesAtMostItems | joereport.py:61 | There are never more candidate names than assignments, one name at most per item. |
| Transcript.Insert | joereport.py:65 | Inserting an item adds exactly that item to the multiset. |
| Transcript.Sort | joereport.py:65 | The sort returns a permutation of its input. |
| Transcript.InsertSorted | joereport.py:65 | Inserting into a sorted list keeps it sorted. |
| Transcript.SortSorted | joereport.py:65 | The sort's result is sorted in its direction. |
| Transcript.InsertTies | joereport.py:65 | An inserted item goes in front of the items it ties with and leaves every other tie group unchanged. |
| Transcript.SortStable | joereport.py:65 | Sorting keeps the insertion order of every group of equal scores. |
| Transcript.GenerateTranscript | joereport.py:63-66 | The transcript is a permutation of the assignments. It is non-increasing for "descending" and non-decreasing for any other string, and tied scores keep insertion order. Also `joseph.py:47-50` and `j.nishimwe@alustudent.com_il.py:108-116`. |
| Transcript.TiesMembers | joereport.py:65 | An item is in the tie group of score k iff it is in the list and scores k. |
| Transcript.SortedStableUnique | joereport.py:65 | Two arrangements that are both sorted in one direction and agree within every tie group are equal. |
| Transcript.TranscriptUnique | joereport.py:63-66 | The transcript is the only sorted arrangement of the assignments that keeps tied scores in insertion order. |
| Transcript.TiesAppend | joereport.py:65 | Tie groups commute with concatenation. |
| Transcript.TiesReverse | joereport.py:65 | The tie groups of a reversed list are the reversed tie groups. |
| Transcript.DistinctTiesShort | joereport.py:65 | Without repeated scores, every tie group has at most one item. |
| Transcript.DescendingReversesWithoutTies | joereport.py:65 | When no two scores tie, the descending transcript is the ascending one reversed. |
| Transcript.DescendingKeepsTieOrder | joereport.py:65 | Two items that tie keep their insertion order in the descending transcript, while the reversed ascending transcript swaps them. |
| Courses.AddAssignment | joereport.py:26-27 | Appends exactly one item at the end and leaves the earlier items, the name, the attendance log and the session count unchanged. Also `j.nishimwe@alustudent.com_il.py:40-46`. |
| Courses.AddPlainAssignment | joseph.py:19-20 | Appends exactly one item at the end and leaves the earlier items and the name unchanged. |
| Courses.MarkAttendance | joereport.py:29-31 | Appends exactly one `(date, status)` entry and leaves everything else unchanged. Also `j.nishimwe@alustudent.com_il.py:48-55`. |
| Courses.PresentCount | joereport.py:35 | The present count never exceeds the number of log entries. |
| Courses.PresentCountIsOccurrences | joereport.py:35 | The present count is the number of statuses exactly equal to "Present"; no other status counts. |
| Courses.MarkAttendanceCount | joereport.py:29-35 | Marking a session adds 1 to the present count iff the status is "Present". |
| Courses.CalculateAttendance | joereport.py:33-36 | Fails iff `total_sessions` is 0, because there is no guard. Otherwise the value times `total_sessions` is the present count times 100. Also `j.nishimwe@alustudent.com_il.py:57-64`. |
| Courses.AttendanceCanExceedFull | joereport.py:33-36 | With more Present entries than sessions, the percentage exceeds 100. |
| Courses.AddAssignmentGroupScore | joereport.py:26-27 | Adding an assignment changes a group's totals by exactly its weight and weighted score if it has the group's type, and not at all otherwise. |
| Students.AddCourse | joereport.py:75-76 | Appends exactly one course at the end and leaves the earlier courses, the name and the email unchanged. Also `joseph.py:59-60` and `j.nishimwe@alustudent.com_il.py:132-138`. |
| Students.AllAssignmentsAppend | joereport.py:82-83 | The assignments of two course lists in a row are the first list's assignments followed by the second's. |
| Students.CalculateGpa | joereport.py:78-87 | The GPA is the weight-averaged mean of every score of every course, and it is 0 when the total weight is 0. Also `j.nishimwe@alustudent.com_il.py:140-154`. |
| Students.GpaBounds | joereport.py:78-87 | With scores in 0..100 and non-negative weights, the GPA lies in 0..100. |
| Students.AddCourseTotals | joereport.py:82-85 | Adding a course adds its weight and weighted-score totals to the student's totals. |
| Reports.SectionFor | joereport.py:99-127 | A course's section fails iff its session count is 0. Otherwise it holds the progression, the resubmission notice, the attendance and its warning (< 75), and the transcript. |
| Reports.Sections | joereport.py:99-103 | One section per course, in course order, describing that course. The list fails iff some course has 0 sessions. |
| Reports.CourseRows | joereport.py:131-132 | One detailed row per assignment of the course, in insertion order, each holding the course name, the name, the score, the weight and the weighted score. |
| Reports.DetailedRows | joereport.py:99-132 | One detailed row per assignment across all courses, in course order and then insertion order, with the assignment's name, score, weight and weighted score. The Course column is fixed by `Reports.DetailedRowsBlock`. |
| Reports.DetailedRowsBlock | joereport.py:99-132 | The rows of the i-th course form one contiguous block, placed after the rows of the courses before it. That block is exactly the course's rows, so each of them names that course. |
| Reports.DetailedRowsBlocks | joereport.py:99-132 | The block property holds for every course of the list at once. |
| Reports.DetailedRowsAppend | joereport.py:99-132 | The detailed rows of two course lists in a row are the first list's rows followed by the second's. |
| Reports.GenerateReport | joereport.py:89-143 | The report fails iff some course has 0 mandatory sessions. Otherwise it has one section per course in order, a warning exactly when attendance is below 75, "No Resubmissions Needed." exactly when there is no candidate, the GPA as a weighted mean, and the detailed table. In that table, each course's rows form one block in course order, and every row names its own course. |
| Reports.GeneratePlainReport | joseph.py:62-97 | One section per course, in course order, with its progression and transcript. It says "No Resubmissions Needed." exactly when the course has no candidate and otherwise lists the candidates. |
| Examples.WeightedScoreExample | joereport.py:173 | A score of 40.59 at weight 20 earns 8.118. |
| Examples.ProgressionExamples | joereport.py:54-57 | 40%/25% passes, exactly 30%/20% passes, and a formative total of 29.99% fails. |
| Examples.ResubmissionExample | joereport.py:61 | A Formative item scoring 49 is a candidate; one scoring 50 is not, and neither is a Summative item scoring 10. |
| Examples.AscendingTranscriptExample | joereport.py:63-66 | Scores 90, 40.59 and 100 sort to 40.59, 90, 100 ascending. |
| Examples.DescendingTranscriptExample | joereport.py:63-66 | Scores 90, 40.59 and 100 sort to 100, 90, 40.59 descending. |
| Examples.EmptyGpaExample | joereport.py:87 | A student without courses has GPA 0. |
| Examples.GpaExample | joereport.py:78-87 | Items (F 85/15), (S 72/20) and (S 90/20) give a GPA of 45.15 / 55 * 100. |
| Examples.AttendanceExamples | joereport.py:33-36 | Seven Present entries over 7 sessions give 100%, and 0 sessions fail. |

## Left out

- The SMTP and MIME sending in `send_report_to_parent` is left out because it is network I/O. `joseph.py` calls `MIMEMultipart` and `smtplib` without importing them.
- Text layout is left out: the `tabulate` grids, the `:.2f` formatting and the column padding. These are a foreign library and float formatting. The model keeps the data each report line shows and the order of those lines.
- The example scripts at module level, with their hard-coded addresses and credentials, are left out. They are entry points, not logic.
- Python's reference semantics are left out. `Student.courses` holds references to mutable `Course` objects, so an assignment added to a course after `add_course` still reaches `calculate_gpa` and `generate_report` (`joereport.py:75-87`). The model's records are values: a student holds the courses as they were when added, and a caller must add the updated course again to see a later change.
- Float rounding is left out because all arithmetic is exact `real`.
- The report's unused `overall_score` and `total_weight` locals are left out because they affect nothing.
- The nested loop of `calculate_gpa` accumulates both totals as it goes. The model sums over the flattened list in the loops' order, but adds right to left, which is equal in exact arithmetic.
- The loop of `calculate_group_score` adds items left to right. The model's fold adds them right to left, which is equal in exact arithmetic.
