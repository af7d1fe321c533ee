/** `fetch courses`: drains the course list, sorts the named courses into
    semester groups that keep fetch order, and lists the groups by label in
    descending string order. */
module Courses {
  import opened Wrappers
  import opened Text
  import Semester
  import Pager

  /** A course record. `name` is None when the key is absent; `startAt` and
      `endAt` are None when the key is absent or null. */
  datatype Course = Course(id: int, name: Option<string>, startAt: Option<string>, endAt: Option<string>)

  /** What the listing prints per course: `(course["id"], course["name"])`. */
  type Entry = (int, string)

  const NoSemester := "No Semester"

  /** Both dates present, non-null and non-empty. */
  predicate HasTerm(c: Course) {
    c.startAt.Some? && c.endAt.Some? && c.startAt.value != "" && c.endAt.value != ""
  }

  /** The group label of a course; None stands for the ValueError raised when
      a date does not parse. */
  function SemesterOf(c: Course): (r: Option<string>)
    ensures !HasTerm(c) ==> r == Some(NoSemester)
    ensures HasTerm(c) ==> r != Some(NoSemester)
    ensures HasTerm(c) ==> (r.Some? <==> Semester.ParseTimestamp(c.startAt.value).Some? && Semester.ParseTimestamp(c.endAt.value).Some?)
    ensures HasTerm(c) ==> r == Semester.ParseSemester(c.startAt.value, c.endAt.value)
  {
    if HasTerm(c) then
      var r := Semester.ParseSemester(c.startAt.value, c.endAt.value);
      if r.Some? then Semester.SemesterLabelNotNoSemester(c.startAt.value, c.endAt.value); r else r
    else Some(NoSemester)
  }

  /** The entries of group `l`: the named courses labelled `l`, in fetch order. */
  function Group(courses: seq<Course>, l: string): seq<Entry>
    decreases |courses|
  {
    if courses == [] then []
    else
      var c := courses[|courses| - 1];
      Group(courses[..|courses| - 1], l) + (if c.name.Some? && SemesterOf(c) == Some(l) then [(c.id, c.name.value)] else [])
  }

  /** Every named course can be labelled (otherwise the command fails). */
  predicate AllLabelled(courses: seq<Course>) {
    forall i :: 0 <= i < |courses| && courses[i].name.Some? ==> SemesterOf(courses[i]).Some?
  }

  /** Groups of concatenated course lists are concatenated groups: order is
      fetch order. */
  lemma {:induction false} GroupAppend(a: seq<Course>, b: seq<Course>, l: string)
    ensures Group(a + b, l) == Group(a, l) + Group(b, l)
    decreases |b|
  {
    if b == [] {
      assert a + b == a;
    } else {
      assert (a + b)[..|a + b| - 1] == a + b[..|b| - 1];
      GroupAppend(a, b[..|b| - 1], l);
    }
  }

  /** Course `c` is named, has entry `e` and carries label `l`. */
  predicate Produces(c: Course, l: string, e: Entry) {
    c.name == Some(e.1) && c.id == e.0 && SemesterOf(c) == Some(l)
  }

  /** A group holds exactly the named courses with that label: each entry comes
      from such a course, and each such course has its entry there. Courses
      without a name appear nowhere. */
  lemma {:induction false} GroupMembers(courses: seq<Course>, l: string, e: Entry)
    ensures e in Group(courses, l) <==> exists i :: 0 <= i < |courses| && Produces(courses[i], l, e)
    decreases |courses|
  {
    if courses != [] {
      var n := |courses| - 1;
      var init := courses[..n];
      GroupMembers(init, l, e);
      var last := courses[n];
      var tail: seq<Entry> := if last.name.Some? && SemesterOf(last) == Some(l) then [(last.id, last.name.value)] else [];
      assert Group(courses, l) == Group(init, l) + tail;
      assert e in tail <==> Produces(last, l, e);
      if exists i :: 0 <= i < |init| && Produces(init[i], l, e) {
        var i :| 0 <= i < |init| && Produces(init[i], l, e);
        assert courses[i] == init[i];
      }
      if exists i :: 0 <= i < |courses| && Produces(courses[i], l, e) {
        var i :| 0 <= i < |courses| && Produces(courses[i], l, e);
        if i < n {
          assert init[i] == courses[i];
        }
      }
    }
  }

  /** A named course without both dates is listed under "No Semester". */
  lemma UndatedInNoSemester(courses: seq<Course>, i: int)
    requires 0 <= i < |courses| && courses[i].name.Some? && !HasTerm(courses[i])
    ensures (courses[i].id, courses[i].name.value) in Group(courses, NoSemester)
  {
  }

  /** Extending the course list by one course extends one group at most. */
  lemma GroupSnoc(courses: seq<Course>, i: int, l: string)
    requires 0 <= i < |courses|
    ensures var c := courses[i];
      Group(courses[..i + 1], l) ==
        Group(courses[..i], l) + (if c.name.Some? && SemesterOf(c) == Some(l) then [(c.id, c.name.value)] else [])
  {
    assert courses[..i + 1][..i] == courses[..i];
  }

  /** The loop's view of the groups after the first `i` courses. */
  ghost predicate GroupsOf(g: map<string, seq<Entry>>, done: seq<Course>) {
    && (forall l :: l in g <==> Group(done, l) != [])
    && (forall l :: l in g ==> g[l] == Group(done, l))
  }

  /** One step of the loop: the course is appended to its label's group. */
  lemma AppendStep(courses: seq<Course>, i: int, g: map<string, seq<Entry>>, l: string)
    requires 0 <= i < |courses| && GroupsOf(g, courses[..i])
    requires courses[i].name.Some? && SemesterOf(courses[i]) == Some(l)
    ensures GroupsOf(g[l := (if l in g then g[l] else []) + [(courses[i].id, courses[i].name.value)]], courses[..i + 1])
  {
    forall l' {
      GroupSnoc(courses, i, l');
    }
  }

  /** One step of the loop for a course without a name: nothing changes. */
  lemma SkipStep(courses: seq<Course>, i: int, g: map<string, seq<Entry>>)
    requires 0 <= i < |courses| && GroupsOf(g, courses[..i])
    requires courses[i].name.None?
    ensures GroupsOf(g, courses[..i + 1])
  {
    forall l' {
      GroupSnoc(courses, i, l');
    }
  }

  lemma LabelledStep(courses: seq<Course>, i: int)
    requires 0 <= i < |courses| && AllLabelled(courses[..i])
    requires courses[i].name.Some? ==> SemesterOf(courses[i]).Some?
    ensures AllLabelled(courses[..i + 1])
  {
  }

  /** The `defaultdict(list)` loop: appends each named course to its label's
      group. None when some named course's dates do not parse. */
  method GroupCourses(courses: seq<Course>) returns (groups: Option<map<string, seq<Entry>>>)
    ensures groups.Some? <==> AllLabelled(courses)
    ensures groups.Some? ==> forall l :: l in groups.value <==> Group(courses, l) != []
    ensures groups.Some? ==> forall l :: l in groups.value ==> groups.value[l] == Group(courses, l)
  {
    var g: map<string, seq<Entry>> := map[];
    var i := 0;
    while i < |courses|
      invariant 0 <= i <= |courses|
      invariant AllLabelled(courses[..i])
      invariant GroupsOf(g, courses[..i])
    {
      var c := courses[i];
      if c.name.Some? {
        var semester := SemesterOf(c);
        if semester.None? {
          assert !AllLabelled(courses) by {
            assert courses[i].name.Some? && SemesterOf(courses[i]).None?;
          }
          return None;
        }
        var l := semester.value;
        AppendStep(courses, i, g, l);
        g := g[l := (if l in g then g[l] else []) + [(c.id, c.name.value)]];
      } else {
        SkipStep(courses, i, g);
      }
      LabelledStep(courses, i);
      i := i + 1;
    }
    assert courses[..i] == courses;
    groups := Some(g);
  }

  /** Labels listed from greatest to least, each once. */
  predicate StrictlyDescending(labels: seq<string>) {
    forall i, j :: 0 <= i < j < |labels| ==> StrLess(labels[j], labels[i])
  }

  function Labels(listing: seq<(string, seq<Entry>)>): (r: seq<string>)
    ensures |r| == |listing|
    ensures forall i :: 0 <= i < |listing| ==> r[i] == listing[i].0
  {
    seq(|listing|, i requires 0 <= i < |listing| => listing[i].0)
  }

  /** The greatest label of a non-empty set. */
  method MaxLabel(s: set<string>) returns (m: string)
    requires s != {}
    ensures m in s
    ensures forall x :: x in s && x != m ==> StrLess(x, m)
  {
    m :| m in s;
    var rest := s - {m};
    while rest != {}
      invariant rest <= s && m in s && m !in rest
      invariant forall x :: x in s - rest && x != m ==> StrLess(x, m)
      decreases |rest|
    {
      var y :| y in rest;
      if StrLess(m, y) {
        forall x | x in s - rest && x != m
          ensures StrLess(x, y)
        {
          StrLessTransitive(x, m, y);
        }
        m := y;
      } else if y != m {
        StrLessTotal(y, m);
      }
      rest := rest - {y};
    }
  }

  /** `sorted(groups.items(), key=label, reverse=True)`. */
  method OrderGroups(groups: map<string, seq<Entry>>) returns (listing: seq<(string, seq<Entry>)>)
    ensures StrictlyDescending(Labels(listing))
    ensures forall l :: l in groups <==> l in Labels(listing)
    ensures forall i :: 0 <= i < |listing| ==> listing[i].0 in groups && listing[i].1 == groups[listing[i].0]
  {
    listing := [];
    var rest := groups.Keys;
    while rest != {}
      invariant rest <= groups.Keys
      invariant StrictlyDescending(Labels(listing))
      invariant forall l :: l in groups <==> l in rest || l in Labels(listing)
      invariant forall l :: l in rest ==> l !in Labels(listing)
      invariant forall i :: 0 <= i < |listing| ==> listing[i].0 in groups && listing[i].1 == groups[listing[i].0]
      invariant forall i, l :: 0 <= i < |listing| && l in rest ==> StrLess(l, listing[i].0)
      decreases |rest|
    {
      var m := MaxLabel(rest);
      assert Labels(listing + [(m, groups[m])]) == Labels(listing) + [m];
      listing := listing + [(m, groups[m])];
      rest := rest - {m};
    }
  }

  /** A strictly descending listing is determined by its set of labels. */
  lemma {:induction false} DescendingUnique(a: seq<string>, b: seq<string>)
    requires StrictlyDescending(a) && StrictlyDescending(b)
    requires forall x :: x in a <==> x in b
    ensures a == b
    decreases |a|
  {
    assert b != [] ==> b[0] in b;
    if a != [] {
      assert a[0] in a;
      assert b != [];
      assert b[0] in b;
      if a[0] != b[0] {
        var i :| 0 <= i < |a| && a[i] == b[0];
        var j :| 0 <= j < |b| && b[j] == a[0];
        StrLessAsymmetric(a[0], b[0]);
        assert false;
      }
      forall x
        ensures x in a[1..] <==> x in b[1..]
      {
        if x in a[1..] {
          var i :| 1 <= i < |a| && a[i] == x;
          StrLessIrreflexive(a[0]);
          assert x in b;
          var j :| 0 <= j < |b| && b[j] == x;
          assert j != 0;
          assert b[1..][j - 1] == x;
        }
        if x in b[1..] {
          var j :| 1 <= j < |b| && b[j] == x;
          StrLessIrreflexive(b[0]);
          assert x in a;
          var i :| 0 <= i < |a| && a[i] == x;
          assert i != 0;
          assert a[1..][i - 1] == x;
        }
      }
      DescendingUnique(a[1..], b[1..]);
    }
  }

  /** `fetch_courses`: drains the course list (page `k` is known to be empty)
      and lists the groups. None when a named course's dates do not parse. */
  method FetchCourses(coursePages: int -> seq<Course>, ghost k: int)
    returns (listing: Option<seq<(string, seq<Entry>)>>)
    requires 1 <= k && coursePages(k) == []
    ensures listing.Some? <==> AllLabelled(Pager.Drained(coursePages, k))
    ensures listing.Some? ==> StrictlyDescending(Labels(listing.value))
    ensures listing.Some? ==> forall l :: l in Labels(listing.value) <==> Group(Pager.Drained(coursePages, k), l) != []
    ensures listing.Some? ==> forall i :: 0 <= i < |listing.value| ==>
      listing.value[i].1 == Group(Pager.Drained(coursePages, k), listing.value[i].0)
  {
    var courses, _, _ := Pager.FetchAllPages(coursePages, None, k);
    var groups := GroupCourses(courses);
    if groups.None? {
      return None;
    }
    var ordered := OrderGroups(groups.value);
    listing := Some(ordered);
  }
}
