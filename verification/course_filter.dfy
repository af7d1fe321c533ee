/** The course-id allow-list of `fetch assignments` and `fetch grades`: the
    command-line arguments are joined with commas and split again, and a course
    is kept when its id, written in decimal, is one of the pieces. */
module CourseFilter {
  import opened Text

  /** `not course_id or str(id) in ",".join(course_id).split(",")`. */
  predicate Selected(args: seq<string>, id: int) {
    args == [] || IntToDecimal(id) in Split(Join(args, ','), ',')
  }

  /** The pieces each argument contributes. */
  function ArgumentPieces(args: seq<string>): seq<seq<string>> {
    seq(|args|, i requires 0 <= i < |args| => Split(args[i], ','))
  }

  /** No argument means no filter; otherwise a course is kept exactly when its
      id equals a comma-separated piece of one of the arguments. */
  lemma SelectedIff(args: seq<string>, id: int)
    ensures args == [] ==> Selected(args, id)
    ensures args != [] ==>
      (Selected(args, id) <==> exists j :: 0 <= j < |args| && IntToDecimal(id) in Split(args[j], ','))
  {
    if args != [] {
      var x, p := IntToDecimal(id), ArgumentPieces(args);
      SplitJoin(args, ',');
      assert Split(Join(args, ','), ',') == Flatten(p);
      InFlatten(x, p);
      if Selected(args, id) {
        var j :| 0 <= j < |p| && x in p[j];
        assert x in Split(args[j], ',');
      }
      if exists j :: 0 <= j < |args| && x in Split(args[j], ',') {
        var j :| 0 <= j < |args| && x in Split(args[j], ',');
        assert x in p[j];
      }
    }
  }

  /** With plain ids as arguments (no commas inside), the join and split give
      the arguments back, and selection is exact membership. */
  lemma SelectedPlainIds(args: seq<string>, id: int)
    requires args != []
    requires forall j :: 0 <= j < |args| ==> ',' !in args[j]
    ensures Split(Join(args, ','), ',') == args
    ensures Selected(args, id) <==> IntToDecimal(id) in args
  {
    SplitJoin(args, ',');
    forall j | 0 <= j < |args|
      ensures Split(args[j], ',') == [args[j]]
    {
      SplitWithoutSeparator(args[j], ',');
    }
    FlattenSingletons(args);
  }

  lemma {:induction false} FlattenSingletons(args: seq<string>)
    requires forall j :: 0 <= j < |args| ==> Split(args[j], ',') == [args[j]]
    ensures Flatten(seq(|args|, i requires 0 <= i < |args| => Split(args[i], ','))) == args
    decreases |args|
  {
    if args != [] {
      var f := seq(|args|, i requires 0 <= i < |args| => Split(args[i], ','));
      FlattenSingletons(args[1..]);
      assert f[1..] == seq(|args[1..]|, i requires 0 <= i < |args[1..]| => Split(args[1..][i], ','));
      assert f[0] == [args[0]];
    }
  }

  /** Membership is exact, not by substring: `12` does not select course 1,
      while one argument `1,2` selects course 2. */
  lemma NoSubstringMatch()
    ensures !Selected(["12"], 1)
    ensures Selected(["1,2"], 2)
  {
  }
}
