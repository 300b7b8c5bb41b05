/** `CoverageData` of gcovr.py: the results of several object files merged for one source file,
    and the summary of the lines that no run covered. */
module Coverage {
  import opened Basics

  /** What one gcov file reports. */
  datatype Report = Report(
    uncovered: set<nat>,
    exceptional: set<nat>,
    covered: map<nat, nat>,
    branches: map<nat, map<int, nat>>,
    noncode: set<nat>)

  /** The fields of a `CoverageData` object, as a value. */
  datatype Data = Data(
    uncovered: set<nat>,
    exceptional: set<nat>,
    covered: map<nat, nat>,
    branches: map<nat, map<int, nat>>,
    noncode: set<nat>,
    allLines: set<nat>)

  // ----- Counts

  function Count<K>(m: map<K, nat>, k: K): nat {
    if k in m then m[k] else 0
  }

  function AddCounts<K>(a: map<K, nat>, b: map<K, nat>): map<K, nat> {
    map k | k in a.Keys + b.Keys :: Count(a, k) + Count(b, k)
  }

  function BranchesAt(branches: map<nat, map<int, nat>>, line: nat): map<int, nat> {
    if line in branches then branches[line] else map[]
  }

  /** The branch counts after an update: a line without branches adds no entry. */
  function AddBranches(a: map<nat, map<int, nat>>, b: map<nat, map<int, nat>>): map<nat, map<int, nat>> {
    map line | line in a.Keys + b.Keys && (line in a || b[line] != map[]) ::
      AddCounts(BranchesAt(a, line), BranchesAt(b, line))
  }

  function Initial(r: Report): Data {
    Data(r.uncovered, r.exceptional, r.covered, r.branches, r.noncode, r.uncovered + r.exceptional + r.covered.Keys)
  }

  function Updated(d: Data, r: Report): Data {
    var covered := AddCounts(d.covered, r.covered);
    Data(d.uncovered + r.uncovered - covered.Keys,
         d.exceptional + r.exceptional - covered.Keys,
         covered,
         AddBranches(d.branches, r.branches),
         d.noncode * r.noncode,
         d.allLines + r.uncovered + r.exceptional + r.covered.Keys)
  }

  // ----- The object

  class CoverageData {
    var uncovered: set<nat>
    var exceptional: set<nat>
    var covered: map<nat, nat>
    var branches: map<nat, map<int, nat>>
    var noncode: set<nat>
    var allLines: set<nat>

    function Value(): Data
      reads this
    {
      Data(uncovered, exceptional, covered, branches, noncode, allLines)
    }

    constructor (r: Report)
      ensures Value() == Initial(r)
    {
      uncovered, exceptional, covered, noncode := r.uncovered, r.exceptional, r.covered, r.noncode;
      allLines := r.uncovered + r.exceptional + r.covered.Keys;
      branches := r.branches;
    }

    /** Adds the counts of `more` key by key, in whatever order the keys come. */
    static method Accumulate<K(==)>(counts: map<K, nat>, more: map<K, nat>) returns (sums: map<K, nat>)
      ensures sums == AddCounts(counts, more)
    {
      sums := counts;
      var left := more.Keys;
      while left != {}
        invariant left <= more.Keys
        invariant sums.Keys == counts.Keys + (more.Keys - left)
        invariant forall k :: k in sums ==> sums[k] == Count(counts, k) + if k in left then 0 else Count(more, k)
        decreases left
      {
        var k :| k in left;
        sums := sums[k := Count(sums, k) + more[k]];
        left := left - {k};
      }
    }

    /** The loop over the branch table: an entry is made for a line only when it has a branch. */
    static method AccumulateBranches(was: map<nat, map<int, nat>>, more: map<nat, map<int, nat>>)
        returns (branches: map<nat, map<int, nat>>)
      ensures branches == AddBranches(was, more)
    {
      hide AddCounts;
      forall line | line in was
        ensures AddCounts(was[line], map[]) == was[line]
      {
        AddNothing(was[line]);
      }
      branches := was;
      var left := more.Keys;
      while left != {}
        invariant left <= more.Keys
        invariant forall line :: line in branches <==>
          line in was || (line in more && line !in left && more[line] != map[])
        invariant forall line :: line in left && line in branches ==> branches[line] == was[line]
        invariant forall line :: line !in left && line in branches ==>
          branches[line] == AddCounts(BranchesAt(was, line), BranchesAt(more, line))
        decreases left
      {
        var line :| line in left;
        if more[line] != map[] {
          var sums := Accumulate(BranchesAt(branches, line), more[line]);
          branches := branches[line := sums];
        }
        left := left - {line};
      }
    }

    method Update(r: Report)
      modifies this
      ensures Value() == Updated(old(Value()), r)
    {
      hide AddCounts, AddBranches;
      allLines := allLines + r.uncovered + r.exceptional + r.covered.Keys;
      uncovered := uncovered + r.uncovered;
      exceptional := exceptional + r.exceptional;
      noncode := noncode * r.noncode;
      covered := Accumulate(covered, r.covered);
      branches := AccumulateBranches(branches, r.branches);
      uncovered := uncovered - covered.Keys;
      exceptional := exceptional - covered.Keys;
    }
  }

  lemma AddNothing<K>(a: map<K, nat>)
    ensures AddCounts(a, map[]) == a
  {}

  // ----- Merging several reports

  /** The object after the first report created it and the others updated it. */
  function Merge(rs: seq<Report>): Data
    requires rs != []
  {
    if |rs| == 1 then Initial(rs[0]) else Updated(Merge(rs[..|rs| - 1]), rs[|rs| - 1])
  }

  method MergeAll(rs: seq<Report>) returns (data: CoverageData)
    requires rs != []
    ensures fresh(data) && data.Value() == Merge(rs)
  {
    data := new CoverageData(rs[0]);
    assert rs[..1] == [rs[0]];
    for i := 1 to |rs|
      invariant fresh(data) && data.Value() == Merge(rs[..i])
    {
      assert rs[..i + 1][..i] == rs[..i];
      data.Update(rs[i]);
    }
    assert rs[..|rs|] == rs;
  }

  // ----- What the reports say, in no particular order

  ghost predicate Uncovers(rs: seq<Report>, line: nat) {
    exists r :: r in rs && line in r.uncovered
  }

  ghost predicate Excepts(rs: seq<Report>, line: nat) {
    exists r :: r in rs && line in r.exceptional
  }

  ghost predicate Covers(rs: seq<Report>, line: nat) {
    exists r :: r in rs && line in r.covered
  }

  ghost predicate NeverCode(rs: seq<Report>, line: nat) {
    forall r :: r in rs ==> line in r.noncode
  }

  ghost predicate HasBranch(rs: seq<Report>, line: nat, b: int) {
    exists r :: r in rs && line in r.branches && b in r.branches[line]
  }

  ghost predicate HasBranches(rs: seq<Report>, line: nat) {
    exists r :: r in rs && line in r.branches && r.branches[line] != map[]
  }

  function Sum(rs: seq<Report>, f: Report -> nat): nat {
    if rs == [] then 0 else Sum(rs[..|rs| - 1], f) + f(rs[|rs| - 1])
  }

  function Hits(line: nat): Report -> nat {
    (r: Report) => Count(r.covered, line)
  }

  function Taken(line: nat, b: int): Report -> nat {
    (r: Report) => Count(BranchesAt(r.branches, line), b)
  }

  // ----- What a merge is

  /** One more report adds what it says itself. */
  lemma OneMoreReport(rs: seq<Report>, line: nat, b: int)
    requires rs != []
    ensures var front, last := Front(rs), Last(rs);
      && (Uncovers(rs, line) <==> Uncovers(front, line) || line in last.uncovered)
      && (Excepts(rs, line) <==> Excepts(front, line) || line in last.exceptional)
      && (Covers(rs, line) <==> Covers(front, line) || line in last.covered)
      && (NeverCode(rs, line) <==> NeverCode(front, line) && line in last.noncode)
      && (HasBranches(rs, line) <==>
        (HasBranches(front, line) || (line in last.branches && last.branches[line] != map[])))
      && (HasBranch(rs, line, b) <==> HasBranch(front, line, b) || (line in last.branches && b in last.branches[line]))
  {
    var front, last := Front(rs), Last(rs);
    assert rs == front + [last];
    assert forall r :: r in rs <==> r in front || r == last;
  }

  /** One step of the merge, line by line. */
  lemma UpdatedLines(d: Data, r: Report, line: nat)
    ensures var e := Updated(d, r);
      && (line in e.covered <==> line in d.covered || line in r.covered)
      && Count(e.covered, line) == Count(d.covered, line) + Count(r.covered, line)
      && (line in e.uncovered <==> (line in d.uncovered || line in r.uncovered) && line !in e.covered)
      && (line in e.exceptional <==> (line in d.exceptional || line in r.exceptional) && line !in e.covered)
      && (line in e.noncode <==> line in d.noncode && line in r.noncode)
      && (line in e.allLines <==>
        (line in d.allLines || line in r.uncovered || line in r.exceptional || line in r.covered))
  {
    hide AddBranches;
  }

  lemma {:induction false} MergedLines(rs: seq<Report>, line: nat)
    requires rs != []
    ensures line in Merge(rs).allLines <==> Uncovers(rs, line) || Excepts(rs, line) || Covers(rs, line)
    ensures line in Merge(rs).covered <==> Covers(rs, line)
    ensures Count(Merge(rs).covered, line) == Sum(rs, Hits(line))
    ensures |rs| >= 2 ==> (line in Merge(rs).uncovered <==> Uncovers(rs, line) && !Covers(rs, line))
    ensures |rs| >= 2 ==> (line in Merge(rs).exceptional <==> Excepts(rs, line) && !Covers(rs, line))
    ensures |rs| == 1 ==> Merge(rs).uncovered == rs[0].uncovered && Merge(rs).exceptional == rs[0].exceptional
    ensures line in Merge(rs).noncode <==> NeverCode(rs, line)
  {
    OneMoreReport(rs, line, 0);
    if |rs| > 1 {
      MergedLines(Front(rs), line);
      UpdatedLines(Merge(Front(rs)), Last(rs), line);
      if |rs| == 2 {
        OneMoreReport(Front(rs), line, 0);
      }
      hide Updated, Uncovers, Excepts, Covers, NeverCode;
    } else {
      assert Sum(Front(rs), Hits(line)) == 0;
    }
  }

  lemma UpdatedBranches(d: Data, r: Report, line: nat, b: int)
    ensures var e, more := Updated(d, r).branches, BranchesAt(r.branches, line);
      && (line in e <==> line in d.branches || more != map[])
      && (b in BranchesAt(e, line) <==> b in BranchesAt(d.branches, line) || b in more)
      && Count(BranchesAt(e, line), b) == Count(BranchesAt(d.branches, line), b) + Count(more, b)
  {}

  lemma {:induction false} MergedBranches(rs: seq<Report>, line: nat, b: int)
    requires rs != []
    ensures line in Merge(rs).branches <==> line in rs[0].branches || HasBranches(rs, line)
    ensures b in BranchesAt(Merge(rs).branches, line) <==> HasBranch(rs, line, b)
    ensures Count(BranchesAt(Merge(rs).branches, line), b) == Sum(rs, Taken(line, b))
  {
    OneMoreReport(rs, line, b);
    if |rs| > 1 {
      MergedBranches(Front(rs), line, b);
      UpdatedBranches(Merge(Front(rs)), Last(rs), line, b);
      hide Updated, HasBranch, HasBranches;
    } else {
      assert Sum(Front(rs), Taken(line, b)) == 0;
    }
  }

  /** No line is reported both uncovered and covered once two reports are merged, and the lines
      are accounted for throughout. */
  lemma MergeInvariant(rs: seq<Report>)
    requires rs != []
    ensures Merge(rs).allLines == Merge(rs).uncovered + Merge(rs).exceptional + Merge(rs).covered.Keys
    ensures |rs| >= 2 ==> Merge(rs).uncovered !! Merge(rs).covered.Keys
    ensures |rs| >= 2 ==> Merge(rs).exceptional !! Merge(rs).covered.Keys
  {
    hide Merge;
    var d := Merge(rs);
    if |rs| == 1 {
      SingleMerge(rs);
    } else {
      forall line
        ensures line in d.allLines <==> line in d.uncovered + d.exceptional + d.covered.Keys
        ensures !(line in d.uncovered && line in d.covered) && !(line in d.exceptional && line in d.covered)
      {
        MergedLines(rs, line);
      }
    }
  }

  lemma SingleMerge(rs: seq<Report>)
    requires |rs| == 1
    ensures Merge(rs) == Initial(rs[0])
  {}

  // ----- The order of the reports

  lemma {:induction false} SumWithout(rs: seq<Report>, i: nat, f: Report -> nat)
    requires i < |rs|
    ensures Sum(rs, f) == Sum(rs[..i] + rs[i + 1..], f) + f(rs[i])
  {
    var n, without := |rs|, rs[..i] + rs[i + 1..];
    if i == n - 1 {
      assert without == rs[..n - 1];
    } else {
      SumWithout(rs[..n - 1], i, f);
      assert without[..n - 2] == rs[..n - 1][..i] + rs[..n - 1][i + 1..];
      assert without[n - 2] == rs[n - 1];
    }
  }

  lemma WithoutOne<A>(xs: seq<A>, xs': seq<A>, i: nat)
    requires xs != [] && i < |xs'| && Last(xs) == xs'[i] && multiset(xs) == multiset(xs')
    ensures multiset(Front(xs)) == multiset(xs'[..i] + xs'[i + 1..])
  {
    assert xs == Front(xs) + [Last(xs)];
    WithoutEntry(xs', i);
    assert multiset(Front(xs)) == multiset(xs) - multiset{Last(xs)};
  }

  lemma WithoutEntry<A>(xs: seq<A>, i: nat)
    requires i < |xs|
    ensures multiset(xs[..i] + xs[i + 1..]) == multiset(xs) - multiset{xs[i]}
  {
    assert xs == xs[..i] + [xs[i]] + xs[i + 1..];
    assert multiset(xs) == multiset(xs[..i]) + multiset{xs[i]} + multiset(xs[i + 1..]);
  }

  lemma {:induction false} SumIgnoresOrder(rs: seq<Report>, rs': seq<Report>, f: Report -> nat)
    requires multiset(rs) == multiset(rs')
    ensures Sum(rs, f) == Sum(rs', f)
  {
    if rs == [] {
      assert |multiset(rs')| == 0;
    } else {
      var n := |rs|;
      assert rs[n - 1] in multiset(rs');
      var i :| 0 <= i < |rs'| && rs'[i] == rs[n - 1];
      WithoutOne(rs, rs', i);
      SumIgnoresOrder(rs[..n - 1], rs'[..i] + rs'[i + 1..], f);
      SumWithout(rs', i, f);
    }
  }

  /** Every count and every set of lines is the same for every order of two or more reports. */
  lemma LinesIgnoreOrder(rs: seq<Report>, rs': seq<Report>)
    requires |rs| >= 2 && multiset(rs) == multiset(rs') && |rs'| == |rs|
    ensures Merge(rs').(branches := Merge(rs).branches) == Merge(rs)
  {
    hide Merge, Sum, Hits;
    var d, d' := Merge(rs), Merge(rs');
    forall r
      ensures r in rs <==> r in rs'
    {
      assert r in multiset(rs) <==> r in multiset(rs');
    }
    forall line
      ensures line in d.allLines <==> line in d'.allLines
      ensures line in d.uncovered <==> line in d'.uncovered
      ensures line in d.exceptional <==> line in d'.exceptional
      ensures line in d.noncode <==> line in d'.noncode
      ensures line in d.covered <==> line in d'.covered
      ensures line in d.covered ==> d.covered[line] == d'.covered[line]
    {
      MergedLines(rs, line);
      MergedLines(rs', line);
      SumIgnoresOrder(rs, rs', Hits(line));
    }
    assert d.covered == d'.covered;
  }

  lemma BranchesIgnoreOrder(rs: seq<Report>, rs': seq<Report>, line: nat)
    requires |rs| >= 2 && multiset(rs) == multiset(rs') && |rs'| == |rs|
    ensures BranchesAt(Merge(rs).branches, line) == BranchesAt(Merge(rs').branches, line)
    ensures HasBranches(rs, line) <==> HasBranches(rs', line)
  {
    hide Merge, Sum, Taken;
    forall r
      ensures r in rs <==> r in rs'
    {
      assert r in multiset(rs) <==> r in multiset(rs');
    }
    var t, t' := BranchesAt(Merge(rs).branches, line), BranchesAt(Merge(rs').branches, line);
    forall b
      ensures b in t <==> b in t'
      ensures Count(t, b) == Count(t', b)
    {
      MergedBranches(rs, line, b);
      MergedBranches(rs', line, b);
      SumIgnoresOrder(rs, rs', Taken(line, b));
    }
    assert forall b :: b in t ==> t[b] == Count(t, b) == Count(t', b) == t'[b];
    assert t == t';
  }

  /** For arbitrary branch tables the order of two or more reports matters only through lines whose
      tables are all empty: those survive only from the first report. No report read from a file
      has such a table, so for files the order never matters: see `GcovMerge.FilesIgnoreOrder`. */
  lemma OrderIndependence(rs: seq<Report>, rs': seq<Report>)
    requires |rs| >= 2 && multiset(rs) == multiset(rs') && |rs'| == |rs|
    ensures Merge(rs) == Merge(rs') <==>
      forall line :: !HasBranches(rs, line) ==> (line in rs[0].branches <==> line in rs'[0].branches)
  {
    hide Merge, HasBranches;
    LinesIgnoreOrder(rs, rs');
    var a, b := Merge(rs).branches, Merge(rs').branches;
    forall line
      ensures line in a <==> line in rs[0].branches || HasBranches(rs, line)
      ensures line in b <==> line in rs'[0].branches || HasBranches(rs, line)
      ensures BranchesAt(a, line) == BranchesAt(b, line)
    {
      MergedBranches(rs, line, 0);
      MergedBranches(rs', line, 0);
      BranchesIgnoreOrder(rs, rs', line);
    }
    if forall line :: !HasBranches(rs, line) ==> (line in rs[0].branches <==> line in rs'[0].branches) {
      forall line
        ensures line in a <==> line in b
        ensures line in a ==> a[line] == b[line]
      {
        assert BranchesAt(a, line) == BranchesAt(b, line);
      }
      assert a == b;
    }
  }

  /** Why that matters: with an empty table, which the reader never makes, the order would show. */
  lemma OrderCanShow()
    ensures exists r, r' :: Merge([r, r']) != Merge([r', r])
  {
    var r := Report({}, {}, map[], map[5 := map[]], {});
    var r' := Report({}, {}, map[], map[], {});
    assert multiset([r, r']) == multiset([r', r]);
    MergedBranches([r, r'], 5, 0);
    MergedBranches([r', r], 5, 0);
    assert Merge([r, r']) != Merge([r', r]);
  }

  // ----- The summary of uncovered lines

  datatype Range = Range(first: nat, last: nat)

  ghost predicate Sorted(lines: seq<nat>) {
    forall i, j :: 0 <= i < j < |lines| ==> lines[i] < lines[j]
  }

  /** The list of a set, in order. */
  method SortedLines(lines: set<nat>) returns (sorted: seq<nat>)
    ensures Sorted(sorted) && forall x :: x in sorted <==> x in lines
  {
    sorted := [];
    var left := lines;
    while left != {}
      invariant left <= lines && Sorted(sorted)
      invariant forall x :: x in lines <==> x in left || x in sorted
      invariant forall x, y :: x in sorted && y in left ==> x < y
      decreases left
    {
      var m := Least(left);
      assert forall i :: 0 <= i < |sorted| ==> sorted[i] in sorted;
      sorted := sorted + [m];
      left := left - {m};
    }
  }

  method Least(lines: set<nat>) returns (m: nat)
    requires lines != {}
    ensures m in lines && forall x :: x in lines ==> m <= x
  {
    m :| m in lines;
    var left := lines - {m};
    while left != {}
      invariant left <= lines && m in lines && forall x :: x in lines ==> x in left || m <= x
      decreases left
    {
      var x :| x in left;
      if x < m {
        m := x;
      }
      left := left - {x};
    }
  }

  /** Line x lies in one of the ranges. */
  ghost predicate InRanges(ranges: seq<Range>, x: nat) {
    exists r :: r in ranges && r.first <= x <= r.last
  }

  /** Ranges in order, none empty, none touching the next. */
  ghost predicate Separated(ranges: seq<Range>) {
    && (forall i :: 0 <= i < |ranges| ==> ranges[i].first <= ranges[i].last)
    && (forall i, j :: 0 <= i < j < |ranges| ==> ranges[i].last + 1 < ranges[j].first)
  }

  /** The ranges finished so far and the one being built account for the lines seen. */
  ghost predicate Accounts(ranges: seq<Range>, lines: seq<nat>) {
    Separated(ranges) && forall x :: InRanges(ranges, x) <==> x in lines
  }

  lemma StartRange(ranges: seq<Range>, lines: seq<nat>, x: nat)
    requires Accounts(ranges, lines)
    requires ranges != [] ==> ranges[|ranges| - 1].last + 1 < x
    ensures Accounts(ranges + [Range(x, x)], lines + [x])
  {
    var more := ranges + [Range(x, x)];
    forall i, j | 0 <= i < j < |more|
      ensures more[i].last + 1 < more[j].first
    {
      if j == |ranges| && i < |ranges| - 1 {
        assert ranges[i].last + 1 < ranges[|ranges| - 1].first;
      }
    }
    forall y
      ensures InRanges(more, y) <==> InRanges(ranges, y) || y == x
    {
      Snoc(ranges, Range(x, x), y);
    }
  }

  lemma GrowRange(ranges: seq<Range>, first: nat, last: nat, lines: seq<nat>)
    requires Accounts(ranges + [Range(first, last)], lines)
    ensures Accounts(ranges + [Range(first, last + 1)], lines + [last + 1])
  {
    var now, next := ranges + [Range(first, last)], ranges + [Range(first, last + 1)];
    assert now[|ranges|].first <= now[|ranges|].last;
    assert forall i :: 0 <= i < |ranges| ==> next[i] == now[i];
    forall i, j | 0 <= i < j < |next|
      ensures next[i].last + 1 < next[j].first
    {
      assert now[i].last + 1 < now[j].first;
    }
    assert Separated(next);
    forall y
      ensures InRanges(next, y) <==> InRanges(now, y) || y == last + 1
    {
      Snoc(ranges, Range(first, last), y);
      Snoc(ranges, Range(first, last + 1), y);
    }
  }

  lemma Snoc(ranges: seq<Range>, r: Range, y: nat)
    ensures InRanges(ranges + [r], y) <==> InRanges(ranges, y) || r.first <= y <= r.last
  {
    assert r in ranges + [r];
    assert forall x :: x in ranges + [r] <==> x in ranges || x == r;
  }

  /** The loop of `uncovered_str`: blocks of consecutive lines become ranges. */
  method UncoveredRanges(lines: set<nat>) returns (ranges: seq<Range>)
    ensures Separated(ranges)
    ensures forall x :: InRanges(ranges, x) <==> x in lines
  {
    hide Accounts;
    if lines == {} {
      ranges := [];
      return;
    }
    var tmp := SortedLines(lines);
    assert tmp != [] by {
      var x :| x in lines;
      assert x in tmp;
    }
    EmptyAccounts();
    StartRange([], [], tmp[0]);
    assert [] + [tmp[0]] == tmp[..1];
    var first, last := tmp[0], tmp[0];
    ranges := [];
    for i := 1 to |tmp|
      invariant last == tmp[i - 1]
      invariant Accounts(ranges + [Range(first, last)], tmp[..i])
    {
      var item := tmp[i];
      assert tmp[..i + 1] == tmp[..i] + [item];
      if item == last + 1 {
        GrowRange(ranges, first, last, tmp[..i]);
        last := item;
      } else {
        StartRange(ranges + [Range(first, last)], tmp[..i], item);
        ranges := ranges + [Range(first, last)];
        first, last := item, item;
      }
    }
    ranges := ranges + [Range(first, last)];
    assert tmp[..|tmp|] == tmp;
    AccountsIs(ranges, tmp);
  }

  lemma EmptyAccounts()
    ensures Accounts([], [])
  {}

  lemma AccountsIs(ranges: seq<Range>, lines: seq<nat>)
    requires Accounts(ranges, lines)
    ensures Separated(ranges) && forall x :: InRanges(ranges, x) <==> x in lines
  {}

  /** Separated ranges for a set of lines are the only ones: none can be joined or split. */
  lemma {:induction false} RangesUnique(a: seq<Range>, b: seq<Range>)
    requires Separated(a) && Separated(b)
    requires forall x: nat :: InRanges(a, x) <==> InRanges(b, x)
    ensures a == b
    decreases |a|
  {
    hide InRanges;
    FirstLine(a);
    FirstLine(b);
    if a != [] && b != [] {
      SameFirst(a, b);
      SameFirst(b, a);
      SameLast(a, b);
      SameLast(b, a);
      assert a[0] == b[0];
      TailsAgree(a, b);
      RangesUnique(a[1..], b[1..]);
      assert a == [a[0]] + a[1..] && b == [b[0]] + b[1..];
    }
  }

  lemma TailsAgree(a: seq<Range>, b: seq<Range>)
    requires Separated(a) && Separated(b) && a != [] && b != [] && a[0] == b[0]
    requires forall x: nat :: InRanges(a, x) <==> InRanges(b, x)
    ensures forall x: nat :: InRanges(a[1..], x) <==> InRanges(b[1..], x)
    ensures Separated(a[1..]) && Separated(b[1..])
  {
    hide InRanges;
    forall x: nat
      ensures InRanges(a[1..], x) <==> InRanges(b[1..], x)
    {
      RestOf(a, x);
      RestOf(b, x);
    }
  }

  lemma FirstLine(a: seq<Range>)
    requires Separated(a)
    ensures a == [] <==> forall x: nat :: !InRanges(a, x)
  {
    if a != [] {
      assert InRanges(a, a[0].first);
    }
  }

  lemma SameFirst(a: seq<Range>, b: seq<Range>)
    requires Separated(a) && Separated(b) && a != [] && b != []
    requires forall x: nat :: InRanges(a, x) <==> InRanges(b, x)
    ensures b[0].first <= a[0].first
  {
    assert InRanges(a, a[0].first);
    var r :| r in b && r.first <= a[0].first <= r.last;
    var i :| 0 <= i < |b| && b[i] == r;
    assert b[0].first <= b[0].last;
  }

  lemma SameLast(a: seq<Range>, b: seq<Range>)
    requires Separated(a) && Separated(b) && a != [] && b != []
    requires forall x: nat :: InRanges(a, x) <==> InRanges(b, x)
    requires a[0].first == b[0].first
    ensures a[0].last <= b[0].last
  {
    if a[0].last > b[0].last {
      var x := b[0].last + 1;
      assert b[0].first <= b[0].last;
      assert InRanges(a, x);
    }
  }

  lemma RestOf(a: seq<Range>, x: nat)
    requires Separated(a) && a != []
    ensures InRanges(a[1..], x) <==> InRanges(a, x) && x > a[0].last
  {
    if InRanges(a[1..], x) {
      var r :| r in a[1..] && r.first <= x <= r.last;
      var i :| 0 <= i < |a| - 1 && a[1..][i] == r;
      assert a[i + 1] == r;
    }
    if InRanges(a, x) && x > a[0].last {
      var r :| r in a && r.first <= x <= r.last;
      var i :| 0 <= i < |a| && a[i] == r;
      assert a[1..][i - 1] == r;
    }
  }
}
