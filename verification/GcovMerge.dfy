/** Reading and merging together: the coverage of one source file from all the gcov files about it,
    as the last lines of `process_gcov_data` put it together. */
module GcovMerge {
  import opened Basics
  import opened Coverage
  import opened GcovReader

  /** What each file reports. */
  function Reports(files: seq<seq<Line>>, unreachable: bool): (rs: seq<Report>)
    ensures |rs| == |files|
  {
    seq(|files|, i requires 0 <= i < |files| => Reported(files[i], unreachable))
  }

  /** The first file creates the entry, every later one updates it. */
  method ProcessFiles(files: seq<seq<Line>>, unreachable: bool) returns (data: CoverageData)
    requires files != []
    ensures fresh(data) && data.Value() == Merge(Reports(files, unreachable))
  {
    hide Reported, Updated, Initial;
    ghost var rs := Reports(files, unreachable);
    var r, unclosed := ReadFile(files[0], unreachable);
    data := new CoverageData(r);
    MergeOfOne(rs);
    for i := 1 to |files|
      invariant fresh(data) && data.Value() == Merge(rs[..i])
    {
      r, unclosed := ReadFile(files[i], unreachable);
      data.Update(r);
      MergeOneMore(rs, i);
    }
    assert rs[..|files|] == rs;
  }

  lemma MergeOfOne(rs: seq<Report>)
    requires rs != []
    ensures Merge(rs[..1]) == Initial(rs[0])
  {}

  lemma MergeOneMore(rs: seq<Report>, i: nat)
    requires 1 <= i < |rs|
    ensures Merge(rs[..i + 1]) == Updated(Merge(rs[..i]), rs[i])
  {
    assert rs[..i + 1][..i] == rs[..i];
  }

  // ----- The order of the files

  /** The reader makes an entry for a line only together with a branch. */
  lemma {:induction false} NoEmptyTables(lines: seq<Line>, unreachable: bool)
    ensures forall n :: n in Reported(lines, unreachable).branches ==> Reported(lines, unreachable).branches[n] != map[]
  {
    if lines != [] {
      NoEmptyTables(Front(lines), unreachable);
      ReportedStep(lines, unreachable);
      var was := Reported(Front(lines), unreachable);
      var last := Last(lines);
      if last.kind.Branch? {
        NotEmpty(BranchesAt(was.branches, Number(lines)), last.kind.index, last.kind.taken);
      }
      hide Reported, Number, Excluded, Dropped;
    }
  }

  lemma NotEmpty(t: map<int, nat>, b: int, taken: nat)
    ensures t[b := taken] != map[]
  {
    assert b in t[b := taken];
  }

  lemma ReportsOfRest(files: seq<seq<Line>>, i: nat, unreachable: bool)
    requires i < |files|
    ensures var rs := Reports(files, unreachable);
      Reports(files[..i] + files[i + 1..], unreachable) == rs[..i] + rs[i + 1..]
  {
    hide Reported;
  }

  /** Putting the same entry back. */
  lemma WithEntry<A>(xs: seq<A>, ys: seq<A>, i: nat)
    requires xs != [] && i < |ys| && Last(xs) == ys[i] && multiset(Front(xs)) == multiset(ys[..i] + ys[i + 1..])
    ensures multiset(xs) == multiset(ys)
  {
    assert xs == Front(xs) + [Last(xs)];
    assert ys == ys[..i] + [ys[i]] + ys[i + 1..];
    assert multiset(ys) == multiset(ys[..i]) + multiset{ys[i]} + multiset(ys[i + 1..]);
  }

  lemma {:induction false} ReportsPermute(files: seq<seq<Line>>, files': seq<seq<Line>>, unreachable: bool)
    requires multiset(files) == multiset(files')
    ensures multiset(Reports(files, unreachable)) == multiset(Reports(files', unreachable))
  {
    hide Reported;
    SameLength(files, files');
    if files != [] {
      var rs, rs' := Reports(files, unreachable), Reports(files', unreachable);
      assert Last(files) in multiset(files');
      var i :| 0 <= i < |files'| && files'[i] == Last(files);
      WithoutOne(files, files', i);
      ReportsPermute(Front(files), files'[..i] + files'[i + 1..], unreachable);
      ReportsOfRest(files', i, unreachable);
      assert Reports(Front(files), unreachable) == Front(rs);
      hide Reports;
      WithEntry(rs, rs', i);
    }
  }

  /** The coverage of a source file does not depend on the order its gcov files are read in. */
  lemma FilesIgnoreOrder(files: seq<seq<Line>>, files': seq<seq<Line>>, unreachable: bool)
    requires files != [] && multiset(files) == multiset(files')
    ensures files' != [] && Merge(Reports(files, unreachable)) == Merge(Reports(files', unreachable))
  {
    SameLength(files, files');
    if |files| == 1 {
      assert files[0] in multiset(files');
      assert files == files';
    } else {
      var rs, rs' := Reports(files, unreachable), Reports(files', unreachable);
      ReportsPermute(files, files', unreachable);
      FromFiles(files, unreachable);
      FromFiles(files', unreachable);
      ReadReportsIgnoreOrder(rs, rs');
    }
  }

  lemma SameLength<A>(xs: seq<A>, ys: seq<A>)
    requires multiset(xs) == multiset(ys)
    ensures |xs| == |ys|
  {
    assert |multiset(xs)| == |xs| && |multiset(ys)| == |ys|;
  }

  /** No report has a line with an empty branch table. */
  ghost predicate NoneEmpty(rs: seq<Report>) {
    forall r, n :: r in rs && n in r.branches ==> r.branches[n] != map[]
  }

  lemma FromFiles(files: seq<seq<Line>>, unreachable: bool)
    ensures NoneEmpty(Reports(files, unreachable))
  {
    hide Reported;
    forall i | 0 <= i < |files|
      ensures forall n :: n in Reported(files[i], unreachable).branches ==>
        Reported(files[i], unreachable).branches[n] != map[]
    {
      NoEmptyTables(files[i], unreachable);
    }
  }

  lemma ReadReportsIgnoreOrder(rs: seq<Report>, rs': seq<Report>)
    requires |rs| >= 2 && multiset(rs) == multiset(rs') && |rs'| == |rs| && NoneEmpty(rs) && NoneEmpty(rs')
    ensures Merge(rs) == Merge(rs')
  {
    hide Merge;
    OrderIndependence(rs, rs');
    forall line | !HasBranches(rs, line)
      ensures line !in rs[0].branches && line !in rs'[0].branches
    {
      BranchesIgnoreOrder(rs, rs', line);
      assert rs[0] in rs && rs'[0] in rs';
    }
  }

  // ----- One file alone

  /** Some line that is not excluded gives a count for line n. */
  ghost predicate SomeCount(lines: seq<Line>, n: nat) {
    exists c :: SomeSays(lines, n, Executed(c))
  }

  lemma {:induction false} ReportedCovered(lines: seq<Line>, unreachable: bool, n: nat)
    ensures n in Reported(lines, unreachable).covered <==> SomeCount(lines, n)
  {
    if lines != [] {
      ReportedCovered(Front(lines), unreachable, n);
      ReportedStep(lines, unreachable);
      forall c
        ensures SomeSays(lines, n, Executed(c)) <==>
          (SomeSays(Front(lines), n, Executed(c))
            || (Number(lines) == n && !Excluded(lines) && Last(lines).kind == Executed(c)))
      {
        SaysStep(lines, n, Executed(c));
      }
      hide Reported, Number, Excluded, SomeSays;
      if c :| SomeSays(Front(lines), n, Executed(c)) {
        assert SomeSays(lines, n, Executed(c));
      }
    } else {
      assert forall c :: !SomeSays(lines, n, Executed(c));
    }
  }

  /** A single file leaves a line both uncovered and covered, or both exceptional and covered,
      exactly when it says both of it: covered lines are taken out only by an update. */
  lemma OneFileDisjoint(lines: seq<Line>, unreachable: bool)
    ensures var d := Merge([Reported(lines, unreachable)]);
      && (d.uncovered !! d.covered.Keys <==> forall n :: !(SomeSays(lines, n, Hash) && SomeCount(lines, n)))
      && (d.exceptional !! d.covered.Keys <==> forall n :: !(SomeSays(lines, n, Equals) && SomeCount(lines, n)))
  {
    var r := Reported(lines, unreachable);
    SingleMerge([r]);
    forall n
      ensures n in r.uncovered <==> SomeSays(lines, n, Hash)
      ensures n in r.exceptional <==> SomeSays(lines, n, Equals)
      ensures n in r.covered <==> SomeCount(lines, n)
    {
      ReportedLines(lines, unreachable, n);
      ReportedCovered(lines, unreachable, n);
    }
    hide Merge, Reported, SomeSays, SomeCount;
    assert Merge([r]) == Initial(r);
  }

  // ----- Inputs that show it

  const UNEXECUTED := Line(Some(7), [], Hash, false, false)
  const EXECUTED := Line(Some(7), [], Executed(3), false, false)

  /** Two lines of one file about the same line, as for two instances of a template: a file alone
      keeps it in both lists. */
  lemma OneFileOverlaps()
    ensures var d := Merge([Reported([UNEXECUTED, EXECUTED], false)]); 7 in d.uncovered && 7 in d.covered
  {
    var lines := [UNEXECUTED, EXECUTED];
    assert Front(lines) == [UNEXECUTED] && Front([UNEXECUTED]) == [];
    assert Markers([UNEXECUTED]) == [] && Markers(lines) == [] && Depth([]) == 0;
    assert !Excluded([UNEXECUTED]) && !Excluded(lines);
    SingleMerge([Reported(lines, false)]);
    ReportedStep(lines, false);
    ReportedStep([UNEXECUTED], false);
  }

  const START_REGION := Line(Some(1), [Marker("GCOV", START)], Dash, false, false)
  const RECORD := Line(None, [], Branch(0, 2), false, false)

  /** An excluded line of code is not reported, and the branch record behind it is. */
  lemma ExcludedBranchKept()
    ensures var r := Reported([START_REGION, EXECUTED, RECORD], false);
      Excluded([START_REGION, EXECUTED]) && Excluded([START_REGION, EXECUTED, RECORD])
      && 7 !in r.covered && 7 in r.branches && r.branches[7] == map[0 := 2]
  {
    var a, b, c := [START_REGION], [START_REGION, EXECUTED], [START_REGION, EXECUTED, RECORD];
    assert Front(c) == b && Front(b) == a && Front(a) == [];
    assert Markers(a) == [Marker("GCOV", START)] && Markers(b) == Markers(a) && Markers(c) == Markers(b);
    assert Front(Markers(a)) == [];
    ReportedStep(a, false);
    ReportedStep(b, false);
    ReportedStep(c, false);
  }

  /** A stop of one kind closes a start of the other. */
  lemma OtherHeaderCloses()
    ensures Depth([Marker("GCOV", START), Marker("LCOV", STOP)]) == 0
  {
    var ms := [Marker("GCOV", START), Marker("LCOV", STOP)];
    assert Front(ms) == [Marker("GCOV", START)] && Front(Front(ms)) == [];
  }

  /** The same line but for the headers of its markers. */
  ghost predicate SameButHeaders(a: Line, b: Line) {
    && |a.markers| == |b.markers| && b == a.(markers := b.markers)
    && forall i :: 0 <= i < |a.markers| ==> a.markers[i].flag == b.markers[i].flag
  }

  lemma {:induction false} DepthIgnoresHeaders(ms: seq<Marker>, ms': seq<Marker>)
    requires |ms| == |ms'| && forall i :: 0 <= i < |ms| ==> ms[i].flag == ms'[i].flag
    ensures Depth(ms) == Depth(ms')
  {
    if ms != [] {
      DepthIgnoresHeaders(Front(ms), Front(ms'));
    }
  }

  lemma {:induction false} MarkersButHeaders(a: seq<Line>, b: seq<Line>)
    requires |a| == |b| && forall i :: 0 <= i < |a| ==> SameButHeaders(a[i], b[i])
    ensures |Markers(a)| == |Markers(b)| && forall i :: 0 <= i < |Markers(a)| ==>
      Markers(a)[i].flag == Markers(b)[i].flag
    ensures Number(a) == Number(b)
  {
    if a != [] {
      MarkersButHeaders(Front(a), Front(b));
      assert SameButHeaders(Last(a), Last(b));
    }
  }

  lemma ExcludedIgnoresHeaders(a: seq<Line>, b: seq<Line>)
    requires |a| == |b| && forall i :: 0 <= i < |a| ==> SameButHeaders(a[i], b[i])
    ensures Excluded(a) == Excluded(b) && Number(a) == Number(b)
  {
    MarkersButHeaders(a, b);
    DepthIgnoresHeaders(Markers(a), Markers(b));
    if a != [] {
      hide Depth, Markers, Number;
      assert SameButHeaders(Last(a), Last(b));
      var ms, ms' := Last(a).markers, Last(b).markers;
      assert MarksLine(ms) <==> exists i :: 0 <= i < |ms| && ms[i].flag == LINE;
      assert MarksLine(ms') <==> exists i :: 0 <= i < |ms'| && ms'[i].flag == LINE;
    }
  }

  /** The headers decide nothing about what is reported. */
  lemma {:induction false} HeadersDoNotMatter(a: seq<Line>, b: seq<Line>, unreachable: bool)
    requires |a| == |b| && forall i :: 0 <= i < |a| ==> SameButHeaders(a[i], b[i])
    ensures Reported(a, unreachable) == Reported(b, unreachable) && LastCode(a) == LastCode(b)
  {
    if a != [] {
      HeadersDoNotMatter(Front(a), Front(b), unreachable);
      ExcludedIgnoresHeaders(a, b);
      ReportedStep(a, unreachable);
      ReportedStep(b, unreachable);
      assert SameButHeaders(Last(a), Last(b));
      hide Number, Excluded, Reported, BranchesAt;
    }
  }
}
