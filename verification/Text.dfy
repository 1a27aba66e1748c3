/** Stripping and splitting text, as Python and Qt do it, over the ASCII white space. */
module Text {

  predicate IsSpace(c: char) {
    c in {' ', '\t', '\n', '\r', '\U{0B}', '\U{0C}'}
  }

  /** The space, and the five control characters from tab to carriage return. */
  lemma SpacesAre(c: char)
    ensures IsSpace(c) <==> c as int == 32 || 9 <= c as int <= 13
  {
  }

  predicate Blank(s: string) {
    forall c <- s :: IsSpace(c)
  }

  function StripLeft(s: string): string {
    if s != [] && IsSpace(s[0]) then StripLeft(s[1..]) else s
  }

  function StripRight(s: string): string {
    if s != [] && IsSpace(s[|s| - 1]) then StripRight(s[..|s| - 1]) else s
  }

  /** Python's `str.strip()` and Qt's `trimmed()`, over the ASCII white space. */
  function Strip(s: string): string {
    StripRight(StripLeft(s))
  }

  lemma {:induction false} StripBlank(s: string)
    requires Blank(s)
    ensures Strip(s) == ""
  {
    if s != [] {
      StripBlank(s[1..]);
    }
  }

  lemma {:induction false} StripLeftSolid(s: string)
    ensures StripLeft(s) == [] || !IsSpace(StripLeft(s)[0])
  {
    if s != [] && IsSpace(s[0]) {
      StripLeftSolid(s[1..]);
    }
  }

  lemma {:induction false} StripRightSolid(s: string)
    ensures StripRight(s) <= s
    ensures StripRight(s) == [] || !IsSpace(StripRight(s)[|StripRight(s)| - 1])
  {
    if s != [] && IsSpace(s[|s| - 1]) {
      StripRightSolid(s[..|s| - 1]);
    }
  }

  /** Text with nothing to strip at either end. */
  lemma Unpadded(s: string)
    requires s != [] ==> !IsSpace(s[0]) && !IsSpace(s[|s| - 1])
    ensures Strip(s) == s
  {
  }

  lemma StripTwice(s: string)
    ensures Strip(Strip(s)) == Strip(s)
  {
    StripLeftSolid(s);
    StripRightSolid(StripLeft(s));
    Unpadded(Strip(s));
  }

  lemma {:induction false} StripLeftIs(s: string)
    ensures exists a :: Blank(a) && s == a + StripLeft(s)
  {
    if s != [] && IsSpace(s[0]) {
      StripLeftIs(s[1..]);
      var a :| Blank(a) && s[1..] == a + StripLeft(s[1..]);
      assert Blank([s[0]] + a) && s == [s[0]] + a + StripLeft(s);
    } else {
      assert Blank([]) && s == [] + StripLeft(s);
    }
  }

  lemma {:induction false} StripRightIs(s: string)
    ensures exists b :: Blank(b) && s == StripRight(s) + b
  {
    if s != [] && IsSpace(s[|s| - 1]) {
      var init := s[..|s| - 1];
      StripRightIs(init);
      var b :| Blank(b) && init == StripRight(init) + b;
      assert Blank(b + [s[|s| - 1]]) && s == StripRight(s) + (b + [s[|s| - 1]]);
    } else {
      assert Blank([]) && s == StripRight(s) + [];
    }
  }

  /** Stripping takes the white space off both ends and nothing else. */
  lemma StripIs(s: string)
    ensures exists a, b :: Blank(a) && Blank(b) && s == a + Strip(s) + b
    ensures Strip(s) != [] ==> !IsSpace(Strip(s)[0]) && !IsSpace(Strip(s)[|Strip(s)| - 1])
  {
    StripLeftIs(s);
    var left := StripLeft(s);
    StripRightIs(left);
    var a :| Blank(a) && s == a + left;
    var b :| Blank(b) && left == StripRight(left) + b;
    assert s == a + Strip(s) + b;
    StripLeftSolid(s);
    StripRightSolid(left);
  }

  // ---- Splitting ----

  /** The non-empty runs between separators; `part` is the run being read. */
  function Split(s: string, sep: char, part: string): seq<string> {
    if s == [] then (if part == [] then [] else [part])
    else if s[0] == sep then (if part == [] then [] else [part]) + Split(s[1..], sep, [])
    else Split(s[1..], sep, part + [s[0]])
  }

  lemma {:induction false} SplitRun(run: string, sep: char, part: string)
    requires sep !in run
    ensures Split(run, sep, part) == if part + run == [] then [] else [part + run]
    decreases |run|
  {
    if run == [] {
      assert part + run == part;
    } else {
      SplitRun(run[1..], sep, part + [run[0]]);
      assert part + [run[0]] + run[1..] == part + run;
    }
  }

  lemma {:induction false} SplitConcat(a: string, b: string, sep: char, part: string)
    ensures Split(a + [sep] + b, sep, part) == Split(a, sep, part) + Split(b, sep, [])
    decreases |a|
  {
    var s := a + [sep] + b;
    if a == [] {
      assert s == [sep] + b && s[1..] == b;
    } else {
      assert s[1..] == a[1..] + [sep] + b;
      SplitConcat(a[1..], b, sep, if a[0] == sep then [] else part + [a[0]]);
      if a[0] == sep && part != [] {
        assert [part] + (Split(a[1..], sep, []) + Split(b, sep, [])) == Split(a, sep, part) + Split(b, sep, []);
      }
    }
  }

  predicate IsRun(run: string, sep: char) {
    run != [] && sep !in run
  }

  lemma {:induction false} SplitRuns(s: string, sep: char, part: string)
    requires sep !in part
    ensures forall run <- Split(s, sep, part) :: IsRun(run, sep)
    decreases |s|
  {
    if s != [] {
      SplitRuns(s[1..], sep, if s[0] == sep then [] else part + [s[0]]);
    }
  }

  lemma {:induction false} SplitSome(s: string, sep: char, part: string)
    requires part != [] || exists c <- s :: c != sep
    ensures Split(s, sep, part) != []
    decreases |s|
  {
    if s != [] && s[0] != sep {
      SplitSome(s[1..], sep, part + [s[0]]);
    } else if part == [] {
      var c :| c in s && c != sep;
      assert c in s[1..];
      SplitSome(s[1..], sep, []);
    }
  }

  /** A separator strictly inside makes two runs. */
  lemma SplitInside(s: string, sep: char)
    requires s != [] && s[0] != sep && s[|s| - 1] != sep && sep in s
    ensures |Split(s, sep, [])| >= 2
  {
    var k :| 0 < k < |s| - 1 && s[k] == sep;
    var left, right := s[..k], s[k + 1..];
    assert s == left + [sep] + right;
    assert left[0] == s[0] && left[0] in left;
    assert right[|right| - 1] == s[|s| - 1] && right[|right| - 1] in right;
    SplitConcat(left, right, sep, []);
    SplitSome(left, sep, []);
    SplitSome(right, sep, []);
  }

  function Join(runs: seq<string>, sep: char): string {
    if runs == [] then [] else if |runs| == 1 then runs[0] else runs[0] + [sep] + Join(runs[1..], sep)
  }

  /** Joining and splitting again gives the runs back, so different runs join to different texts. */
  lemma {:induction false} SplitJoin(runs: seq<string>, sep: char)
    requires forall run <- runs :: IsRun(run, sep)
    ensures Split(Join(runs, sep), sep, []) == runs
  {
    if runs != [] {
      assert IsRun(runs[0], sep);
      SplitRun(runs[0], sep, []);
      assert [] + runs[0] == runs[0];
      if |runs| > 1 {
        SplitConcat(runs[0], Join(runs[1..], sep), sep, []);
        SplitJoin(runs[1..], sep);
      }
    }
  }
}
