# canvas-pilot in Dafny

A model of the logic inside `canvas_tools/canvas.py`, the command-line client for the
Canvas learning-management REST API. The network, the JSON decoder, the configuration
file, the `click` command wiring and the calendar and spreadsheet writers are replaced by
values and function parameters. What remains is modelled and proved:

- **Pagination drain** (`Pager`): `fetch_all_pages` asks for pages 1, 2, 3, … of a list
  endpoint and stops at the first empty page. The endpoint is a deterministic function
  from a 1-based page number to that page's records. `Pager.FetchAllPages` is a loop
  proved to return exactly the records of every page before the first empty one, in order.
  It also returns the log of request parameters: every request carries `per_page = 50` and
  the current `page`. The caller's `params` map is written back as the Python
  `dict.update` does, so a caller that passes one sees it hold `page = k`, `per_page = 50`
  afterwards. Because those two keys are overwritten on every request, a second drain
  that reuses the mutated map sends the same requests (`Pager.FetchTwice`). The code
  mutates the caller's map. A design that copies it on every call would differ, and the
  model follows the code.
- **Semester classification** (`Semester`): `parse_semester` reads two
  `YYYY-MM-DDTHH:MM:SSZ` timestamps. Both months ≤ 5 give `Spring`. Otherwise both
  months ≥ 8 give `Fall`. Anything else gives `Summer`. The label always carries the
  start year.
- **Course listing** (`Courses`): courses without a name are skipped. A course whose
  `start_at` or `end_at` is absent, null or empty goes to `"No Semester"`. Every other
  course is labelled by `parse_semester`. Groups keep fetch order and are listed in
  strictly descending order of the label string (Python's `str` order).
- **Course-id allow-list** (`CourseFilter`): `not course_id or str(id) in
  ",".join(course_id).split(",")`. This is exact membership of the decimal id among the
  comma-separated pieces of the arguments. The code tests exact string membership; it
  is neither a substring test nor a comparison of parsed integers.
- **Assignments and grades** (`Assignments`, `Grades`): the loops of `fetch assignments`
  and `fetch grades`. These two commands read the course list with a single unpaginated
  request, so the `courses` parameter of `Assignments.FetchAssignments` and
  `Grades.FetchGrades` is that one response. `fetch courses` drains the course list
  instead: `Courses.FetchCourses` calls `Pager.FetchAllPages`. Each course's assignments
  are drained with `Pager.FetchAllPages` in both commands. An assignment whose `due_at` is null is printed but gets no
  calendar event. A missing `score` prints as `Not graded yet` and a missing
  `points_possible` as `N/A`. These defaults apply only when the key is absent, as with
  `dict.get`; a null value prints as `None`. Every exported grade row holds the command's
  whole argument tuple `course_id` in its `course_id` column, not the id of the row's
  course. The model keeps this as written.

`Text` models the Python string behaviour these rely on: `str(int)`, `join`, `split`
and string comparison.

## Model

| member | source | states |
|---|---|---|
| Config.NormalizeDomain | canvas_tools/canvas.py:19-20 | the result starts with `https://`; a domain that already does is unchanged, any other gets exactly that prefix |
| Config.LoadConfig | canvas_tools/canvas.py:15-21 | the loaded record keeps the API key and its domain starts with `https://` |
| Pager.Overlay | canvas_tools/canvas.py:38-40 | a request's parameters are the caller's keys plus `page` and `per_page = 50`, other keys unchanged |
| Pager.FirstEmptyFrom | canvas_tools/canvas.py:44-48 | the page found is empty and every page before it, from the start page on, is not |
| Pager.FetchAllPages | canvas_tools/canvas.py:32-50 | exactly k requests where k is the first empty page; the result is pages 1..k-1 concatenated in order; request i carries `page = i` and `per_page = 50`; an empty page 1 gives an empty result after one request; the caller's map ends with `page = k`, `per_page = 50` and its other keys |
| Pager.PageInPlace | canvas_tools/canvas.py:47 | each page before the stop sits whole and in order at its offset in the result: nothing dropped, duplicated or reordered |
| Pager.PagesBeforeGrows | canvas_tools/canvas.py:47-48 | each further page only appends to what was collected |
| Pager.DrainedWitnessIrrelevant | canvas_tools/canvas.py:44-45 | the drained result and the stop page depend only on the endpoint, not on which empty page bounds the loop |
| Pager.FetchTwice | canvas_tools/canvas.py:38-40 | reusing the map a first drain mutated, a second drain sends identical request parameters |
| Pager.SampleDrain | canvas_tools/canvas.py:32-50 | pages of 50, 50, 23 and 0 records give 123 records after exactly 4 requests, the last for page 4 |
| Semester.ParseTimestamp | canvas_tools/canvas.py:54-55 | a parse succeeds only on the `YYYY-MM-DDTHH:MM:SSZ` layout (`T` and `Z` in either case) and yields year 1-9999 and month 1-12 read from their fields |
| Semester.LowerCaseSeparators | canvas_tools/canvas.py:54-55 | every in-range timestamp written with lower-case `t` and `z` parses to its own year and month, as strptime matches without regard to case |
| Semester.ParseFormatted | canvas_tools/canvas.py:54-55 | every in-range timestamp in that layout parses to its own year and month |
| Semester.Classify | canvas_tools/canvas.py:57-62 | Spring iff both months ≤ 5, Fall iff both ≥ 8, Summer iff neither; the three are exhaustive and exclusive |
| Semester.LabelRoundTrip | canvas_tools/canvas.py:58-62 | a label `"<season> <year>"` reads back as exactly that season and year |
| Semester.ParseSemester | canvas_tools/canvas.py:53-62 | a label is produced iff both timestamps parse |
| Semester.SemesterLabel | canvas_tools/canvas.py:57-62 | the label names the classification of the two months and the start year |
| Semester.EndYearIgnored | canvas_tools/canvas.py:58-62 | end dates in the same month give the same label whatever their year |
| Semester.SemesterLabelNotNoSemester | canvas_tools/canvas.py:163-165 | a parsed label is never `"No Semester"` |
| Semester.SpringExample | canvas_tools/canvas.py:57-58 | 2024-01-15 to 2024-04-30 is `Spring 2024` |
| Semester.FallExample | canvas_tools/canvas.py:59-60 | 2024-08-20 to 2024-12-15 is `Fall 2024` |
| Semester.SummerExample | canvas_tools/canvas.py:61-62 | 2024-06-01 to 2024-07-01 is `Summer 2024` |
| Text.DecimalRoundTrip | canvas_tools/canvas.py:58 | `int(str(n)) == n`: the decimal year in a label is unambiguous |
| Text.Split | canvas_tools/canvas.py:114 | `split` gives at least one piece, no piece holds the separator, and joining the pieces gives the input back |
| Text.SplitJoin | canvas_tools/canvas.py:114 | splitting the comma-joined arguments is splitting each argument and concatenating the pieces |
| Text.StrLessTransitive | canvas_tools/canvas.py:168-170 | the string order used by the sort is transitive |
| Text.StrLessTotal | canvas_tools/canvas.py:168-170 | two different strings are ordered one way or the other |
| Text.StrLessAsymmetric | canvas_tools/canvas.py:168-170 | no two strings are ordered both ways |
| CourseFilter.SelectedIff | canvas_tools/canvas.py:114 | no arguments select every course; otherwise a course is selected iff its decimal id equals a comma-separated piece of some argument |
| CourseFilter.SelectedPlainIds | canvas_tools/canvas.py:191 | with comma-free arguments the join and split give the arguments back and selection is exact membership |
| CourseFilter.NoSubstringMatch | canvas_tools/canvas.py:114 | argument `12` does not select course 1; argument `1,2` selects course 2 |
| Courses.SemesterOf | canvas_tools/canvas.py:157-165 | a course lacking a non-empty start or end date is `"No Semester"`; a dated one gets exactly the `parse_semester` label of its two dates, never `"No Semester"`, and is labelled iff both dates parse |
| Courses.GroupAppend | canvas_tools/canvas.py:155-166 | groups of a concatenated course list are the concatenated groups: fetch order is kept |
| Courses.GroupMembers | canvas_tools/canvas.py:155-166 | an entry is in a label's group iff some named course with that id, name and label produced it; unnamed courses appear nowhere |
| Courses.UndatedInNoSemester | canvas_tools/canvas.py:157-166 | a named course without both dates is listed under `"No Semester"` |
| Courses.GroupCourses | canvas_tools/canvas.py:154-166 | fails iff some named course's dates do not parse; otherwise the map holds exactly the non-empty groups, each equal to its fetch-order specification |
| Courses.MaxLabel | canvas_tools/canvas.py:168-170 | returns a member of the set that is greater than every other member |
| Courses.OrderGroups | canvas_tools/canvas.py:168-170 | lists every group once, with its entries, in strictly descending label order |
| Courses.DescendingUnique | canvas_tools/canvas.py:168-170 | a strictly descending listing is determined by its labels, so the order is the one `sorted(..., reverse=True)` gives |
| Courses.FetchCourses | canvas_tools/canvas.py:145-173 | drains the courses; fails iff a named course cannot be labelled; otherwise lists exactly the non-empty groups, descending, each in fetch order |
| Assignments.DueLinesAll | canvas_tools/canvas.py:122-123 | one listing line per assignment, in fetch order, dated or not |
| Assignments.EventOfAssignment | canvas_tools/canvas.py:125-137 | an assignment with a null due date adds no event; a dated one adds exactly `"<course>: <name>"` at its due date, in place |
| Assignments.EventsFromDated | canvas_tools/canvas.py:126-137 | every event comes from a dated assignment of that course |
| Assignments.ListCourse | canvas_tools/canvas.py:122-137 | one course's lines and events match their specifications; no events without `--export` |
| Assignments.FetchAssignments | canvas_tools/canvas.py:95-142 | named courses passing the allow-list are listed in order with their drained assignments; events only with `--export` |
| Grades.Get | canvas_tools/canvas.py:204-205 | `dict.get`: the default (`Not graded yet`, `N/A`) only for an absent key; null prints `None` |
| Grades.ScoreLinesAll | canvas_tools/canvas.py:200-206 | one score line per assignment in fetch order, with the sentinels where a field is absent |
| Grades.CourseRowAt | canvas_tools/canvas.py:208-217 | row j of a course is assignment j with `"<score> / <total>"` and the argument tuple as `course_id` |
| Grades.RowsCarryArguments | canvas_tools/canvas.py:209-212 | every exported row's `course_id` is the command's argument tuple |
| Grades.GradeCourse | canvas_tools/canvas.py:200-217 | one course's lines and rows match their specifications; no rows without `--export` |
| Grades.FetchGrades | canvas_tools/canvas.py:179-233 | selected courses in order, each with a header and its drained assignments' score lines; rows only with `--export` |

## Left out

- HTTP requests, the bearer-token header, URLs and `response.json()` are not modelled. Endpoints are deterministic functions, and transport or decode failures are outside the contract.
- Pager.FetchAllPages: it requires a page known to be empty. An endpoint that never returns an empty page makes the Python loop run forever, and that case is not modelled.
- Reading and writing `canvas_config.json`, `exit(1)` on a missing file, and the `configure` prompts are I/O. Only the domain rule is modelled, on the parsed record.
- `click` wiring and the text of `click.echo` are left out. Console output is a sequence of structured lines.
- The `icalendar` and `csv` serialisers are left out. Events and rows are the values handed to them, and the CSV header is not modelled.
- `datetime.fromisoformat` of `due_at` is not modelled. The due date is kept as an opaque string.
- Semester.ParseTimestamp: it accepts only the zero-padded 20-character layout with ASCII digits (the `T` and `Z` separators in either case). `strptime` also accepts unpadded fields and other Unicode digits. The day is checked only against 1-31, not against the month's length or leap years.
- A course whose `name` key holds null is treated like a course without a name. The Python keeps it and prints `None`.
- A course whose `start_at`/`end_at` holds a non-string truthy value is not modelled. Dates are strings or absent/null.
- An assignment without a `due_at` key raises `KeyError` in the Python. The model always has the key, which may hold null.
- Course records always carry `id`, and assignment records always carry `id` and `name`. The Python raises `KeyError` when one of these keys is missing; the model has no such case.
- Failures of one submission lookup are not isolated. The Python does not catch them, and the model's lookups are total functions.
