/** `fetch assignments`: for every named course the allow-list selects, drain
    its assignments, list each one with its due date, and (with `--export`)
    turn each assignment that has a due date into a calendar event. */
module Assignments {
  import opened Wrappers
  import Pager
  import CourseFilter
  import Courses

  /** An assignment record. `dueAt` is None for a JSON null; `pointsPossible`
      is the text of the field, see `Field`. */
  datatype Assignment = Assignment(id: int, name: string, dueAt: Option<string>, pointsPossible: Field)

  /** A JSON field that may be absent, null, or hold a value (kept as the text
      Python prints for it). */
  datatype Field = Absent | Null | Present(text: string)

  /** One line of the console listing. A null due date prints as `None`. */
  datatype Line = CourseHeader(courseName: string) | DueLine(assignmentName: string, dueAt: Option<string>)

  /** A calendar event: `summary` and `dtstart` (the due date, kept opaque). */
  datatype Event = Event(summary: string, dtstart: string)

  /** Every course's assignment pages end: `last(id)` is an empty page of
      course `id`. */
  ghost predicate PagesEnd(pages: int -> int -> seq<Assignment>, last: int -> int) {
    forall id :: 1 <= last(id) && pages(id)(last(id)) == []
  }

  /** The assignments `fetch_all_pages` collects for one course. */
  function CourseAssignments(pages: int -> int -> seq<Assignment>, last: int -> int, id: int): seq<Assignment>
    requires PagesEnd(pages, last)
  {
    Pager.Drained(pages(id), last(id))
  }

  /** The courses the command goes through: named ones the allow-list selects. */
  predicate Listed(args: seq<string>, c: Courses.Course) {
    c.name.Some? && CourseFilter.Selected(args, c.id)
  }

  function DueLines(assignments: seq<Assignment>): seq<Line>
    decreases |assignments|
  {
    if assignments == [] then []
    else
      var a := assignments[|assignments| - 1];
      DueLines(assignments[..|assignments| - 1]) + [DueLine(a.name, a.dueAt)]
  }

  /** The events of one course: assignments without a due date are skipped. */
  function CourseEvents(courseName: string, assignments: seq<Assignment>): seq<Event>
    decreases |assignments|
  {
    if assignments == [] then []
    else
      var a := assignments[|assignments| - 1];
      CourseEvents(courseName, assignments[..|assignments| - 1]) +
        (if a.dueAt.Some? then [Event(courseName + ": " + a.name, a.dueAt.value)] else [])
  }

  /** The whole console listing: a header per listed course, then its lines. */
  function Listing(args: seq<string>, courses: seq<Courses.Course>, pages: int -> int -> seq<Assignment>, last: int -> int): seq<Line>
    requires PagesEnd(pages, last)
    decreases |courses|
  {
    if courses == [] then []
    else
      var c := courses[|courses| - 1];
      Listing(args, courses[..|courses| - 1], pages, last) +
        (if Listed(args, c) then [CourseHeader(c.name.value)] + DueLines(CourseAssignments(pages, last, c.id)) else [])
  }

  /** Every event of the export, in listing order. */
  function Calendar(args: seq<string>, courses: seq<Courses.Course>, pages: int -> int -> seq<Assignment>, last: int -> int): seq<Event>
    requires PagesEnd(pages, last)
    decreases |courses|
  {
    if courses == [] then []
    else
      var c := courses[|courses| - 1];
      Calendar(args, courses[..|courses| - 1], pages, last) +
        (if Listed(args, c) then CourseEvents(c.name.value, CourseAssignments(pages, last, c.id)) else [])
  }

  /** The listing prints every assignment, in fetch order, dated or not. */
  lemma {:induction false} DueLinesAll(assignments: seq<Assignment>)
    ensures |DueLines(assignments)| == |assignments|
    ensures forall j :: 0 <= j < |assignments| ==>
      DueLines(assignments)[j] == DueLine(assignments[j].name, assignments[j].dueAt)
    decreases |assignments|
  {
    if assignments != [] {
      DueLinesAll(assignments[..|assignments| - 1]);
    }
  }

  lemma {:induction false} CourseEventsAppend(courseName: string, a: seq<Assignment>, b: seq<Assignment>)
    ensures CourseEvents(courseName, a + b) == CourseEvents(courseName, a) + CourseEvents(courseName, b)
    decreases |b|
  {
    if b == [] {
      assert a + b == a;
    } else {
      assert (a + b)[..|a + b| - 1] == a + b[..|b| - 1];
      CourseEventsAppend(courseName, a, b[..|b| - 1]);
    }
  }

  /** An assignment without a due date adds no event, while one with a due
      date adds exactly its own event in its place. */
  lemma EventOfAssignment(courseName: string, assignments: seq<Assignment>, j: int)
    requires 0 <= j < |assignments|
    ensures var a := assignments[j];
      CourseEvents(courseName, assignments) ==
        CourseEvents(courseName, assignments[..j]) +
        (if a.dueAt.Some? then [Event(courseName + ": " + a.name, a.dueAt.value)] else []) +
        CourseEvents(courseName, assignments[j + 1..])
  {
    assert assignments == assignments[..j] + [assignments[j]] + assignments[j + 1..];
    CourseEventsAppend(courseName, assignments[..j] + [assignments[j]], assignments[j + 1..]);
    CourseEventsAppend(courseName, assignments[..j], [assignments[j]]);
    assert [assignments[j]][..0] == [];
  }

  /** Every event comes from a dated assignment of the course. */
  lemma {:induction false} EventsFromDated(courseName: string, assignments: seq<Assignment>, e: Event)
    requires e in CourseEvents(courseName, assignments)
    ensures exists j ::
              0 <= j < |assignments| && assignments[j].dueAt == Some(e.dtstart) &&
              e.summary == courseName + ": " + assignments[j].name
    decreases |assignments|
  {
    var n := |assignments| - 1;
    if e in CourseEvents(courseName, assignments[..n]) {
      EventsFromDated(courseName, assignments[..n], e);
      var j :| 0 <= j < n && assignments[..n][j].dueAt == Some(e.dtstart) &&
        e.summary == courseName + ": " + assignments[..n][j].name;
      assert assignments[j] == assignments[..n][j];
    } else {
      assert assignments[n].dueAt == Some(e.dtstart);
    }
  }

  /** The assignment loop of one course: the lines it prints and the events it
      adds. */
  method ListCourse(courseName: string, assignments: seq<Assignment>, exporting: bool)
    returns (lines: seq<Line>, events: seq<Event>)
    ensures lines == DueLines(assignments)
    ensures events == if exporting then CourseEvents(courseName, assignments) else []
  {
    lines, events := [], [];
    var j := 0;
    while j < |assignments|
      invariant 0 <= j <= |assignments|
      invariant lines == DueLines(assignments[..j])
      invariant events == if exporting then CourseEvents(courseName, assignments[..j]) else []
    {
      var a := assignments[j];
      assert assignments[..j + 1][..j] == assignments[..j];
      lines := lines + [DueLine(a.name, a.dueAt)];
      if exporting {
        if a.dueAt.Some? {
          events := events + [Event(courseName + ": " + a.name, a.dueAt.value)];
        }
      }
      j := j + 1;
    }
    assert assignments[..j] == assignments;
  }

  /** `fetch_assignments`: the console listing and, with `--export`, the events
      written to the calendar file. */
  method FetchAssignments(args: seq<string>, courses: seq<Courses.Course>, pages: int -> int -> seq<Assignment>,
                          ghost last: int -> int, exporting: bool)
    returns (listing: seq<Line>, events: seq<Event>)
    requires PagesEnd(pages, last)
    ensures listing == Listing(args, courses, pages, last)
    ensures events == if exporting then Calendar(args, courses, pages, last) else []
  {
    listing, events := [], [];
    var i := 0;
    while i < |courses|
      invariant 0 <= i <= |courses|
      invariant listing == Listing(args, courses[..i], pages, last)
      invariant events == if exporting then Calendar(args, courses[..i], pages, last) else []
    {
      var c := courses[i];
      assert courses[..i + 1][..i] == courses[..i];
      if c.name.Some? {
        var courseName := c.name.value;
        if CourseFilter.Selected(args, c.id) {
          var assignments, _, _ := Pager.FetchAllPages(pages(c.id), None, last(c.id));
          var lines, courseEvents := ListCourse(courseName, assignments, exporting);
          listing := listing + [CourseHeader(courseName)] + lines;
          events := events + courseEvents;
        }
      }
      i := i + 1;
    }
    assert courses[..i] == courses;
  }
}
