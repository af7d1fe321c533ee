/** `fetch grades`: for every course the allow-list selects, drain its
    assignments, look up the caller's own submission for each, print the score
    line and (with `--export`) collect one spreadsheet row per assignment. */
module Grades {
  import opened Wrappers
  import Pager
  import CourseFilter
  import Courses
  import opened Assignments

  const NotGradedYet := "Not graded yet"
  const NotApplicable := "N/A"
  const NoName := "No name"

  /** The caller's submission for one assignment. */
  datatype Submission = Submission(score: Field)

  /** One line of the console listing. */
  datatype GradeLine = GradeHeader(courseName: string) | ScoreLine(assignmentName: string, score: string, total: string)

  /** One spreadsheet row. `courseId` holds the command's whole argument tuple
      `course_id`, not the id of the course the row belongs to. */
  datatype ExportRow = ExportRow(courseId: seq<string>, courseName: string, assignmentId: int, assignmentName: string, score: string)

  /** `record.get(key, default)`: the default only when the key is absent; a
      null prints as `None`. */
  function Get(f: Field, default: string): (r: string)
    ensures f.Absent? ==> r == default
    ensures f.Null? ==> r == "None"
    ensures f.Present? ==> r == f.text
  {
    match f
    case Absent => default
    case Null => "None"
    case Present(t) => t
  }

  function ScoreText(s: Submission): string {
    Get(s.score, NotGradedYet)
  }

  function TotalText(a: Assignment): string {
    Get(a.pointsPossible, NotApplicable)
  }

  /** `course.get("name", "No name")`. */
  function CourseName(c: Courses.Course): string {
    c.name.GetOr(NoName)
  }

  /** The score lines of one course, one per assignment. */
  function ScoreLines(id: int, assignments: seq<Assignment>, submissions: (int, int) -> Submission): seq<GradeLine>
    decreases |assignments|
  {
    if assignments == [] then []
    else
      var a := assignments[|assignments| - 1];
      ScoreLines(id, assignments[..|assignments| - 1], submissions) +
        [ScoreLine(a.name, ScoreText(submissions(id, a.id)), TotalText(a))]
  }

  /** The rows of one course, one per assignment. */
  function CourseRows(args: seq<string>, courseName: string, id: int, assignments: seq<Assignment>,
                      submissions: (int, int) -> Submission): seq<ExportRow>
    decreases |assignments|
  {
    if assignments == [] then []
    else
      var a := assignments[|assignments| - 1];
      var sub := submissions(id, a.id);
      CourseRows(args, courseName, id, assignments[..|assignments| - 1], submissions) +
        [ExportRow(args, courseName, a.id, a.name, ScoreText(sub) + " / " + TotalText(a))]
  }

  /** The whole console listing. */
  function GradeListing(args: seq<string>, courses: seq<Courses.Course>, pages: int -> int -> seq<Assignment>,
                        last: int -> int, submissions: (int, int) -> Submission): seq<GradeLine>
    requires PagesEnd(pages, last)
    decreases |courses|
  {
    if courses == [] then []
    else
      var c := courses[|courses| - 1];
      GradeListing(args, courses[..|courses| - 1], pages, last, submissions) +
        (if CourseFilter.Selected(args, c.id)
         then [GradeHeader(CourseName(c))] + ScoreLines(c.id, CourseAssignments(pages, last, c.id), submissions)
         else [])
  }

  /** Every row of the export. */
  function ExportRows(args: seq<string>, courses: seq<Courses.Course>, pages: int -> int -> seq<Assignment>,
                     last: int -> int, submissions: (int, int) -> Submission): seq<ExportRow>
    requires PagesEnd(pages, last)
    decreases |courses|
  {
    if courses == [] then []
    else
      var c := courses[|courses| - 1];
      ExportRows(args, courses[..|courses| - 1], pages, last, submissions) +
        (if CourseFilter.Selected(args, c.id)
         then CourseRows(args, CourseName(c), c.id, CourseAssignments(pages, last, c.id), submissions)
         else [])
  }

  /** The console shows every assignment of the course in fetch order, with
      the sentinels where a field is absent. */
  lemma {:induction false} ScoreLinesAll(id: int, assignments: seq<Assignment>, submissions: (int, int) -> Submission)
    ensures |ScoreLines(id, assignments, submissions)| == |assignments|
    ensures forall j :: 0 <= j < |assignments| ==>
      ScoreLines(id, assignments, submissions)[j] ==
        ScoreLine(assignments[j].name, Get(submissions(id, assignments[j].id).score, NotGradedYet),
                  Get(assignments[j].pointsPossible, NotApplicable))
    decreases |assignments|
  {
    if assignments != [] {
      ScoreLinesAll(id, assignments[..|assignments| - 1], submissions);
    }
  }

  /** Row j of a course is assignment j, with the submission's score or the
      "Not graded yet" sentinel over the points or the "N/A" sentinel. */
  lemma {:induction false} CourseRowAt(args: seq<string>, courseName: string, id: int, assignments: seq<Assignment>,
                                       submissions: (int, int) -> Submission, j: int)
    requires 0 <= j < |assignments|
    ensures |CourseRows(args, courseName, id, assignments, submissions)| == |assignments|
    ensures var a, r := assignments[j], CourseRows(args, courseName, id, assignments, submissions)[j];
      && r.courseId == args && r.courseName == courseName
      && r.assignmentId == a.id && r.assignmentName == a.name
      && r.score == Get(submissions(id, a.id).score, NotGradedYet) + " / " + Get(a.pointsPossible, NotApplicable)
    decreases |assignments|
  {
    var n := |assignments| - 1;
    if j < n {
      CourseRowAt(args, courseName, id, assignments[..n], submissions, j);
      assert assignments[..n][j] == assignments[j];
    } else {
      CourseRowsLength(args, courseName, id, assignments[..n], submissions);
    }
  }

  lemma {:induction false} CourseRowsLength(args: seq<string>, courseName: string, id: int, assignments: seq<Assignment>,
                                            submissions: (int, int) -> Submission)
    ensures |CourseRows(args, courseName, id, assignments, submissions)| == |assignments|
    decreases |assignments|
  {
    if assignments != [] {
      CourseRowsLength(args, courseName, id, assignments[..|assignments| - 1], submissions);
    }
  }

  /** Every exported row carries the argument tuple in its `course_id` column. */
  lemma {:induction false} RowsCarryArguments(args: seq<string>, courses: seq<Courses.Course>,
                                              pages: int -> int -> seq<Assignment>, last: int -> int,
                                              submissions: (int, int) -> Submission)
    requires PagesEnd(pages, last)
    ensures forall r :: r in ExportRows(args, courses, pages, last, submissions) ==> r.courseId == args
    decreases |courses|
  {
    if courses != [] {
      var c := courses[|courses| - 1];
      RowsCarryArguments(args, courses[..|courses| - 1], pages, last, submissions);
      var assignments := CourseAssignments(pages, last, c.id);
      CourseRowsLength(args, CourseName(c), c.id, assignments, submissions);
      forall j | 0 <= j < |assignments|
        ensures CourseRows(args, CourseName(c), c.id, assignments, submissions)[j].courseId == args
      {
        CourseRowAt(args, CourseName(c), c.id, assignments, submissions, j);
      }
    }
  }

  /** Going through one more course extends the listing and the rows by that
      course's block. */
  lemma GradeStep(args: seq<string>, courses: seq<Courses.Course>, pages: int -> int -> seq<Assignment>,
                  last: int -> int, submissions: (int, int) -> Submission, i: int)
    requires PagesEnd(pages, last)
    requires 0 <= i < |courses|
    ensures var c := courses[i];
      GradeListing(args, courses[..i + 1], pages, last, submissions) ==
        GradeListing(args, courses[..i], pages, last, submissions) +
        (if CourseFilter.Selected(args, c.id)
         then [GradeHeader(CourseName(c))] + ScoreLines(c.id, CourseAssignments(pages, last, c.id), submissions)
         else [])
    ensures var c := courses[i];
      ExportRows(args, courses[..i + 1], pages, last, submissions) ==
        ExportRows(args, courses[..i], pages, last, submissions) +
        (if CourseFilter.Selected(args, c.id)
         then CourseRows(args, CourseName(c), c.id, CourseAssignments(pages, last, c.id), submissions)
         else [])
  {
    assert courses[..i + 1][..i] == courses[..i];
  }

  /** The assignment loop of one course. */
  method GradeCourse(args: seq<string>, courseName: string, id: int, assignments: seq<Assignment>,
                     submissions: (int, int) -> Submission, exporting: bool)
    returns (lines: seq<GradeLine>, rows: seq<ExportRow>)
    ensures lines == ScoreLines(id, assignments, submissions)
    ensures rows == if exporting then CourseRows(args, courseName, id, assignments, submissions) else []
  {
    lines, rows := [], [];
    var j := 0;
    while j < |assignments|
      invariant 0 <= j <= |assignments|
      invariant lines == ScoreLines(id, assignments[..j], submissions)
      invariant rows == if exporting then CourseRows(args, courseName, id, assignments[..j], submissions) else []
    {
      var a := assignments[j];
      assert assignments[..j + 1][..j] == assignments[..j];
      var submission := submissions(id, a.id);
      var score := Get(submission.score, NotGradedYet);
      var total := Get(a.pointsPossible, NotApplicable);
      lines := lines + [ScoreLine(a.name, score, total)];
      if exporting {
        rows := rows + [ExportRow(args, courseName, a.id, a.name, score + " / " + total)];
      }
      j := j + 1;
    }
    assert assignments[..j] == assignments;
  }

  /** `fetch_grades`: the console listing and, with `--export`, the rows
      written below the fixed header of the spreadsheet. */
  method FetchGrades(args: seq<string>, courses: seq<Courses.Course>, pages: int -> int -> seq<Assignment>,
                     ghost last: int -> int, submissions: (int, int) -> Submission, exporting: bool)
    returns (listing: seq<GradeLine>, rows: seq<ExportRow>)
    requires PagesEnd(pages, last)
    ensures listing == GradeListing(args, courses, pages, last, submissions)
    ensures rows == if exporting then ExportRows(args, courses, pages, last, submissions) else []
  {
    listing, rows := [], [];
    var i := 0;
    while i < |courses|
      invariant 0 <= i <= |courses|
      invariant listing == GradeListing(args, courses[..i], pages, last, submissions)
      invariant rows == if exporting then ExportRows(args, courses[..i], pages, last, submissions) else []
    {
      var c := courses[i];
      GradeStep(args, courses, pages, last, submissions, i);
      if CourseFilter.Selected(args, c.id) {
        var courseName := c.name.GetOr(NoName);
        assert courseName == CourseName(c);
        var assignments, _, _ := Pager.FetchAllPages(pages(c.id), None, last(c.id));
        assert assignments == CourseAssignments(pages, last, c.id);
        var lines, courseRows := GradeCourse(args, courseName, c.id, assignments, submissions, exporting);
        listing := listing + [GradeHeader(courseName)] + lines;
        rows := rows + courseRows;
      }
      i := i + 1;
    }
    assert courses[..i] == courses;
  }
}
