/** The reading of one gcov file in `process_gcov_data` of gcovr.py: exclusion markers open and
    close regions on a stack, and only lines outside them are reported. */
module GcovReader {
  import opened Basics
  import opened Coverage

  datatype Flag = LINE | START | STOP

  datatype Marker = Marker(header: string, flag: Flag)

  /** What the first column says: '-', '#', '=', a count, a branch record, or something else. */
  datatype Kind = Dash | Hash | Equals | Executed(count: nat) | Branch(index: int, taken: nat) | Other

  /** One line of the file. `number` is None where the second column is no number; `noncode` is
      `is_non_code` of the source text, `trivial` says the text without comments is empty or braces. */
  datatype Line = Line(number: Option<nat>, markers: seq<Marker>, kind: Kind, noncode: bool, trivial: bool)

  /** An entry of the stack: an open region, or the mark for the current line alone. */
  datatype Exclusion = Region(header: string, start: nat) | ThisLine

  /** The last line of code: its number, and whether it was excluded or trivial. */
  datatype CodeLine = CodeLine(number: nat, excluded: bool, trivial: bool)

  // ----- Which lines are excluded

  /** The number of the last line; a line without one keeps the previous number. */
  function Number(lines: seq<Line>): nat {
    if lines == [] then 0 else match Last(lines).number case Some(n) => n case None => Number(Front(lines))
  }

  function Markers(lines: seq<Line>): seq<Marker> {
    if lines == [] then [] else Markers(Front(lines)) + Last(lines).markers
  }

  /** How many regions are open: a stop without a start is ignored. */
  function Depth(ms: seq<Marker>): nat {
    if ms == [] then 0 else
      var d := Depth(Front(ms));
      match Last(ms).flag
      case START => d + 1
      case STOP => if d > 0 then d - 1 else 0
      case LINE => d
  }

  lemma DepthNext(before: seq<Marker>, markers: seq<Marker>, i: nat)
    requires i < |markers|
    ensures var d := Depth(before + markers[..i]);
      Depth(before + markers[..i + 1]) == match markers[i].flag
      case START => d + 1
      case STOP => if d > 0 then d - 1 else 0
      case LINE => d
  {
    assert Front(before + markers[..i + 1]) == before + markers[..i];
  }

  predicate MarksLine(ms: seq<Marker>) {
    exists m :: m in ms && m.flag == LINE
  }

  /** The last of the lines is excluded. */
  predicate Excluded(lines: seq<Line>) {
    lines != [] && (Depth(Markers(lines)) > 0 || MarksLine(Last(lines).markers))
  }

  /** Starts less stops. */
  function Balance(ms: seq<Marker>): int {
    if ms == [] then 0 else
      Balance(Front(ms)) + match Last(ms).flag case START => 1 case STOP => -1 case LINE => 0
  }

  /** The start at j has no stop of its own. */
  ghost predicate Unclosed(ms: seq<Marker>, j: int) {
    0 <= j < |ms| && ms[j].flag == START && forall k :: j < k <= |ms| ==> Balance(ms[j..k]) > 0
  }

  ghost predicate SomeUnclosed(ms: seq<Marker>) {
    exists j :: Unclosed(ms, j)
  }

  /** A region is open exactly when some start has no stop of its own. */
  lemma DepthPositive(ms: seq<Marker>)
    ensures Depth(ms) > 0 <==> SomeUnclosed(ms)
  {
    if Depth(ms) > 0 {
      var j := Outermost(ms);
      assert Unclosed(ms, j);
    }
    if j :| Unclosed(ms, j) {
      UnclosedKeepsDepth(ms, j, |ms|);
      assert ms[..|ms|] == ms;
    }
  }

  /** The outermost open region: the depth is the balance since its start. */
  lemma {:induction false} Outermost(ms: seq<Marker>) returns (j: nat)
    requires Depth(ms) > 0
    ensures Unclosed(ms, j) && Balance(ms[j..]) == Depth(ms)
  {
    var front := Front(ms);
    if Depth(front) == 0 {
      j := |ms| - 1;
      assert Front(ms[j..]) == [];
      assert forall k :: j < k <= |ms| ==> ms[j..k] == ms[j..];
    } else {
      j := Outermost(front);
      assert Front(ms[j..]) == front[j..];
      forall k | j < k <= |ms|
        ensures Balance(ms[j..k]) > 0
      {
        if k < |ms| {
          FrontSlice(ms, j, k);
        } else {
          assert ms[j..k] == ms[j..];
        }
      }
    }
  }

  lemma FrontSlice(ms: seq<Marker>, j: nat, k: nat)
    requires j <= k < |ms|
    ensures ms[j..k] == Front(ms)[j..k]
  {}

  lemma {:induction false} UnclosedKeepsDepth(ms: seq<Marker>, j: nat, k: nat)
    requires Unclosed(ms, j) && j < k <= |ms|
    ensures Depth(ms[..k]) >= Balance(ms[j..k]) > 0
  {
    var now := ms[..k];
    assert Front(now) == ms[..k - 1] && Front(ms[j..k]) == ms[j..k - 1];
    assert Balance(ms[j..k]) > 0;
    if k == j + 1 {
      assert ms[j..k - 1] == [];
    } else {
      UnclosedKeepsDepth(ms, j, k - 1);
    }
  }

  // ----- What is reported

  /** A line of source, as opposed to a branch, call or function record. */
  predicate IsCode(kind: Kind) {
    kind.Dash? || kind.Hash? || kind.Equals? || kind.Executed?
  }

  function LastCode(lines: seq<Line>): CodeLine {
    if lines == [] then CodeLine(0, false, true) else
    if IsCode(Last(lines).kind) then CodeLine(Number(lines), Excluded(lines), Last(lines).trivial)
      else LastCode(Front(lines))
  }

  /** A branch record is dropped on request, behind a line that is excluded or trivial. */
  predicate Dropped(lines: seq<Line>, unreachable: bool) {
    && lines != [] && unreachable && Number(lines) == LastCode(Front(lines)).number
    && (LastCode(Front(lines)).excluded || LastCode(Front(lines)).trivial)
  }

  function Reported(lines: seq<Line>, unreachable: bool): Report {
    if lines == [] then Report({}, {}, map[], map[], {}) else
      var r, n, last := Reported(Front(lines), unreachable), Number(lines), Last(lines);
      if last.kind.Dash? || (Excluded(lines) && IsCode(last.kind)) then
        if Excluded(lines) || last.noncode then r.(noncode := r.noncode + {n}) else r
      else match last.kind
        case Hash => if last.noncode then r.(noncode := r.noncode + {n}) else r.(uncovered := r.uncovered + {n})
        case Equals => r.(exceptional := r.exceptional + {n})
        case Executed(count) => r.(covered := r.covered[n := count])
        case Branch(index, taken) =>
          if Dropped(lines, unreachable) then r
          else r.(branches := r.branches[n := BranchesAt(r.branches, n)[index := taken]])
        case _ => r
  }

  /** What one more line changes. */
  lemma OneMoreLine(lines: seq<Line>, line: Line)
    ensures var now := lines + [line];
      && now != [] && Front(now) == lines && Last(now) == line
      && Number(now) == (match line.number case Some(n) => n case None => Number(lines))
      && Markers(now) == Markers(lines) + line.markers
      && (Excluded(now) <==> Depth(Markers(lines) + line.markers) > 0 || MarksLine(line.markers))
      && LastCode(now) == if IsCode(line.kind) then CodeLine(Number(now), Excluded(now), line.trivial)
        else LastCode(lines)
  {
    var now := lines + [line];
    assert Front(now) == lines && Last(now) == line;
    hide Depth, MarksLine;
  }

  /** The reading loop's variables. */
  class Reader {
    const unreachable: bool   // options.exclude_unreachable_branches
    var excluding: seq<Exclusion>
    var noncode: set<nat>
    var uncovered: set<nat>
    var exceptional: set<nat>
    var covered: map<nat, nat>
    var branches: map<nat, map<int, nat>>
    var lineno: nat
    var lastCode: CodeLine
    ghost var lines: seq<Line>

    constructor (unreachable: bool)
      ensures Valid() && lines == [] && this.unreachable == unreachable
    {
      this.unreachable := unreachable;
      excluding, noncode, uncovered, exceptional, covered, branches := [], {}, {}, {}, map[], map[];
      lineno, lastCode, lines := 0, CodeLine(0, false, true), [];
    }

    function Value(): Report
      reads this
    {
      Report(uncovered, exceptional, covered, branches, noncode)
    }

    /** Between two lines the stack holds open regions only. */
    ghost predicate Valid()
      reads this
    {
      && |excluding| == Depth(Markers(lines)) && ThisLine !in excluding
      && lineno == Number(lines)
      && lastCode == LastCode(lines)
      && Value() == Reported(lines, unreachable)
    }

    /** The markers of one line: the mark for the line alone goes on top, and only once. */
    method ReadMarkers(markers: seq<Marker>, ghost before: seq<Marker>)
      requires |excluding| == Depth(before) && ThisLine !in excluding
      modifies this`excluding
      ensures |excluding| == Depth(before + markers) + (if MarksLine(markers) then 1 else 0)
      ensures forall i :: 0 <= i < |excluding| ==>
        (excluding[i] == ThisLine <==> MarksLine(markers) && i == |excluding| - 1)
    {
      hide Depth;
      var line := false;
      assert before + markers[..0] == before;
      for i := 0 to |markers|
        invariant |excluding| == Depth(before + markers[..i]) && ThisLine !in excluding
        invariant line <==> exists j :: 0 <= j < i && markers[j].flag == LINE
      {
        DepthNext(before, markers, i);
        match markers[i].flag {
          case START => excluding := excluding + [Region(markers[i].header, lineno)];
          case STOP =>
            if excluding != [] {
              excluding := excluding[..|excluding| - 1];
            }
          case LINE => line := true;
        }
      }
      assert markers[..|markers|] == markers;
      if line {
        excluding := excluding + [ThisLine];
      }
    }

    method ReadLine(line: Line)
      requires Valid()
      modifies this
      ensures Valid() && lines == old(lines) + [line]
    {
      ghost var now := lines + [line];
      OneMoreLine(lines, line);
      hide Depth, MarksLine, Reported, Markers, Number, LastCode, Excluded;
      if line.number.Some? {
        lineno := line.number.value;
      }
      ReadMarkers(line.markers, Markers(lines));
      Classify(line, now);
      if IsCode(line.kind) {
        lastCode := CodeLine(lineno, excluding != [], line.trivial);
      }
      DropLineMark(MarksLine(line.markers));
      lines := now;
    }

    /** The mark for the line alone goes with the line. */
    method DropLineMark(ghost marked: bool)
      requires marked ==> excluding != []
      requires forall i :: 0 <= i < |excluding| ==> (excluding[i] == ThisLine <==> marked && i == |excluding| - 1)
      modifies this`excluding
      ensures ThisLine !in excluding && |excluding| == |old(excluding)| - if marked then 1 else 0
    {
      if excluding != [] && excluding[|excluding| - 1] == ThisLine {
        excluding := excluding[..|excluding| - 1];
      }
    }

    /** The chain of cases on the first column. */
    method Classify(line: Line, ghost now: seq<Line>)
      requires now != [] && Last(now) == line && Value() == Reported(Front(now), unreachable)
      requires lineno == Number(now) && lastCode == LastCode(Front(now)) && (excluding != [] <==> Excluded(now))
      modifies this`noncode, this`uncovered, this`exceptional, this`covered, this`branches
      ensures Value() == Reported(now, unreachable)
    {
      hide Number, Excluded, LastCode;
      if line.kind.Dash? || (excluding != [] && (line.kind.Hash? || line.kind.Equals? || line.kind.Executed?)) {
        if excluding != [] || line.noncode {
          noncode := noncode + {lineno};
        }
      } else {
        match line.kind {
          case Hash =>
            if line.noncode {
              noncode := noncode + {lineno};
            } else {
              uncovered := uncovered + {lineno};
            }
          case Equals => exceptional := exceptional + {lineno};
          case Executed(count) => covered := covered[lineno := count];
          case Branch(index, taken) =>
            var exclude := unreachable && lineno == lastCode.number && (lastCode.excluded || lastCode.trivial);
            if !exclude {
              branches := branches[lineno := BranchesAt(branches, lineno)[index := taken]];
            }
          case _ =>
        }
      }
    }
  }

  /** The whole file. What is left on the stack are the regions that were never closed. */
  method ReadFile(lines: seq<Line>, unreachable: bool) returns (r: Report, unclosed: seq<Exclusion>)
    ensures r == Reported(lines, unreachable)
    ensures unclosed == [] <==> !SomeUnclosed(Markers(lines))
    ensures forall e :: e in unclosed ==> e.Region?
  {
    var reader := new Reader(unreachable);
    for i := 0 to |lines|
      invariant reader.Valid() && reader.lines == lines[..i] && reader.unreachable == unreachable
      invariant fresh(reader)
    {
      assert lines[..i + 1] == lines[..i] + [lines[i]];
      reader.ReadLine(lines[i]);
    }
    assert lines[..|lines|] == lines;
    r, unclosed := reader.Value(), reader.excluding;
    DepthPositive(Markers(lines));
  }

  // ----- What a report says

  /** The line read i-th carries number n and is not excluded. */
  ghost predicate Counts(lines: seq<Line>, i: int, n: nat) {
    0 <= i < |lines| && Number(lines[..i + 1]) == n && !Excluded(lines[..i + 1])
  }

  lemma CountsEarlier(lines: seq<Line>, n: nat)
    requires lines != []
    ensures forall i :: 0 <= i < |lines| - 1 ==> (Counts(Front(lines), i, n) <==> Counts(lines, i, n))
    ensures Counts(lines, |lines| - 1, n) <==> Number(lines) == n && !Excluded(lines)
  {
    forall i | 0 <= i < |lines| - 1
      ensures Counts(Front(lines), i, n) <==> Counts(lines, i, n)
    {
      assert Front(lines)[..i + 1] == lines[..i + 1];
    }
    assert lines[..|lines|] == lines;
  }

  /** What the i-th line read says about line n, unless it is excluded. */
  ghost predicate Says(lines: seq<Line>, i: int, n: nat, kind: Kind) {
    Counts(lines, i, n) && lines[i].kind == kind && (kind.Hash? ==> !lines[i].noncode)
  }

  ghost predicate SomeSays(lines: seq<Line>, n: nat, kind: Kind) {
    exists i :: Says(lines, i, n, kind)
  }

  lemma SaysStep(lines: seq<Line>, n: nat, kind: Kind)
    requires lines != []
    ensures SomeSays(lines, n, kind) <==>
      SomeSays(Front(lines), n, kind)
      || (Number(lines) == n && !Excluded(lines) && Last(lines).kind == kind && (kind.Hash? ==> !Last(lines).noncode))
  {
    CountsEarlier(lines, n);
    hide Counts, Number, Excluded;
    if i :| Says(Front(lines), i, n, kind) {
      assert Says(lines, i, n, kind);
    }
    if i :| Says(lines, i, n, kind) {
      assert i == |lines| - 1 || Says(Front(lines), i, n, kind);
    }
    assert Says(lines, |lines| - 1, n, kind) <==>
        Counts(lines, |lines| - 1, n) && Last(lines).kind == kind && (kind.Hash? ==> !Last(lines).noncode);
  }

  lemma ReportedStep(lines: seq<Line>, unreachable: bool)
    requires lines != []
    ensures var was, now := Reported(Front(lines), unreachable), Reported(lines, unreachable);
      var n, last := Number(lines), Last(lines);
      && now.noncode == was.noncode
        + (if (last.noncode && (last.kind.Dash? || last.kind.Hash?)) || (Excluded(lines) && IsCode(last.kind))
          then {n} else {})
      && now.uncovered == was.uncovered + (if !Excluded(lines) && last.kind == Hash && !last.noncode then {n} else {})
      && now.exceptional == was.exceptional + (if !Excluded(lines) && last.kind == Equals then {n} else {})
      && now.covered == (if !Excluded(lines) && last.kind.Executed? then was.covered[n := last.kind.count]
        else was.covered)
      && now.branches == if last.kind.Branch? && !Dropped(lines, unreachable)
        then was.branches[n := BranchesAt(was.branches, n)[last.kind.index := last.kind.taken]] else was.branches
  {
    hide Number, Excluded, LastCode, Dropped;
  }

  /** A line is reported uncovered or exceptional exactly when some line that is not excluded
      says so. */
  lemma {:induction false} ReportedLines(lines: seq<Line>, unreachable: bool, n: nat)
    ensures n in Reported(lines, unreachable).uncovered <==> SomeSays(lines, n, Hash)
    ensures n in Reported(lines, unreachable).exceptional <==> SomeSays(lines, n, Equals)
  {
    if lines != [] {
      ReportedLines(Front(lines), unreachable, n);
      SaysStep(lines, n, Hash);
      SaysStep(lines, n, Equals);
      ReportedStep(lines, unreachable);
      hide *;
    }
  }

  /** The i-th line read says how often line n was executed, and no later one does. */
  ghost predicate LastCount(lines: seq<Line>, i: int, n: nat, count: nat) {
    Says(lines, i, n, Executed(count)) && forall k, c :: i < k < |lines| ==> !Says(lines, k, n, Executed(c))
  }

  ghost predicate SomeLastCount(lines: seq<Line>, n: nat, count: nat) {
    exists i :: LastCount(lines, i, n, count)
  }

  lemma LastCountAgain(lines: seq<Line>, i: int, n: nat, count: nat)
    requires lines != [] && !(Number(lines) == n && !Excluded(lines) && Last(lines).kind.Executed?)
    ensures LastCount(lines, i, n, count) <==> LastCount(Front(lines), i, n, count)
  {
    CountsEarlier(lines, n);
    hide Counts, Number, Excluded;
    forall k, c
      ensures Says(lines, k, n, Executed(c)) <==> Says(Front(lines), k, n, Executed(c))
    {}
  }

  lemma LastCountNew(lines: seq<Line>, n: nat, count: nat)
    requires lines != [] && Number(lines) == n && !Excluded(lines) && Last(lines).kind.Executed?
    ensures SomeLastCount(lines, n, count) <==> Last(lines).kind.count == count
  {
    CountsEarlier(lines, n);
    hide Counts, Number, Excluded;
    var last, c := |lines| - 1, Last(lines).kind.count;
    assert Says(lines, last, n, Executed(c));
    assert LastCount(lines, last, n, c);
  }

  /** The count reported for a line is the one of the last line that is not excluded and has one. */
  lemma {:induction false} ReportedCounts(lines: seq<Line>, unreachable: bool, n: nat, count: nat)
    ensures n in Reported(lines, unreachable).covered && Reported(lines, unreachable).covered[n] == count
      <==> SomeLastCount(lines, n, count)
  {
    if lines != [] {
      ReportedCounts(Front(lines), unreachable, n, count);
      if Number(lines) == n && !Excluded(lines) && Last(lines).kind.Executed? {
        LastCountNew(lines, n, count);
      } else {
        forall i
          ensures LastCount(lines, i, n, count) <==> LastCount(Front(lines), i, n, count)
        {
          LastCountAgain(lines, i, n, count);
        }
        assert SomeLastCount(lines, n, count) <==> SomeLastCount(Front(lines), n, count);
      }
      ReportedStep(lines, unreachable);
      hide *;
    }
  }

  /** Line k is the last line of code before line i: what lies between are records. */
  ghost predicate CodeBefore(lines: seq<Line>, k: int, i: int) {
    && 0 <= k < i <= |lines| && !lines[k].kind.Branch? && !lines[k].kind.Other?
    && forall j :: k < j < i ==> lines[j].kind.Branch? || lines[j].kind.Other?
  }

  /** Records about line n read i-th are dropped: on request, if the last line of code before has the
      same number and is excluded or trivial; with no line of code before, if the number is still 0. */
  ghost predicate DroppedAt(lines: seq<Line>, i: int, unreachable: bool)
    requires 0 <= i < |lines|
  {
    && unreachable
    && ((exists k :: CodeBefore(lines, k, i) && SameNumberDropped(lines, k, i))
      || ((forall k :: !CodeBefore(lines, k, i)) && Number(lines[..i + 1]) == 0))
  }

  ghost predicate SameNumberDropped(lines: seq<Line>, k: int, i: int)
    requires 0 <= k < i < |lines|
  {
    Number(lines[..k + 1]) == Number(lines[..i + 1]) && (Excluded(lines[..k + 1]) || lines[k].trivial)
  }

  /** The variables kept for the last line of code belong to just that line. */
  lemma {:induction false} LastCodeIs(lines: seq<Line>, i: nat)
    requires i <= |lines|
    ensures (forall k :: !CodeBefore(lines, k, i)) ==> LastCode(lines[..i]) == CodeLine(0, false, true)
    ensures forall k :: CodeBefore(lines, k, i) ==>
      LastCode(lines[..i]) == CodeLine(Number(lines[..k + 1]), Excluded(lines[..k + 1]), lines[k].trivial)
  {
    if i > 0 {
      var j := i - 1;
      LastCodeIs(lines, j);
      assert Front(lines[..i]) == lines[..j] && Last(lines[..i]) == lines[j];
      hide Number, Excluded;
      if lines[j].kind.Branch? || lines[j].kind.Other? {
        forall k
          ensures CodeBefore(lines, k, i) <==> CodeBefore(lines, k, j)
        {}
      } else {
        assert CodeBefore(lines, j, i);
        assert forall k :: CodeBefore(lines, k, i) ==> k == j;
      }
    } else {
      assert lines[..0] == [];
    }
  }

  /** What decides a drop on the kept variables is just that, on the lines. */
  lemma DroppedIs(lines: seq<Line>, i: nat, unreachable: bool)
    requires i < |lines|
    ensures Dropped(lines[..i + 1], unreachable) <==> DroppedAt(lines, i, unreachable)
  {
    LastCodeIs(lines, i);
    assert Front(lines[..i + 1]) == lines[..i];
    hide Number, Excluded, LastCode, CodeBefore;
    if k :| CodeBefore(lines, k, i) {
      assert SameNumberDropped(lines, k, i) ==> DroppedAt(lines, i, unreachable) || !unreachable;
    }
  }

  /** The record read i-th gives branch b of line n, and is not dropped. */
  ghost predicate Records(lines: seq<Line>, i: int, unreachable: bool, n: nat, b: int) {
    && 0 <= i < |lines| && Number(lines[..i + 1]) == n
    && lines[i].kind.Branch? && lines[i].kind.index == b && !DroppedAt(lines, i, unreachable)
  }

  ghost predicate SomeRecords(lines: seq<Line>, unreachable: bool, n: nat, b: int) {
    exists i :: Records(lines, i, unreachable, n, b)
  }

  /** The last record of branch b of line n says `taken`. */
  ghost predicate LastRecord(lines: seq<Line>, i: int, unreachable: bool, n: nat, b: int, taken: nat) {
    && Records(lines, i, unreachable, n, b) && lines[i].kind.taken == taken
    && forall k :: i < k < |lines| ==> !Records(lines, k, unreachable, n, b)
  }

  ghost predicate SomeLastRecord(lines: seq<Line>, unreachable: bool, n: nat, b: int, taken: nat) {
    exists i :: LastRecord(lines, i, unreachable, n, b, taken)
  }

  /** The last line read is a record of branch b of line n, and is not dropped. */
  ghost predicate RecordsHere(lines: seq<Line>, unreachable: bool, n: nat, b: int)
    requires lines != []
  {
    Number(lines) == n && Last(lines).kind.Branch? && Last(lines).kind.index == b && !Dropped(lines, unreachable)
  }

  lemma RecordsEarlier(lines: seq<Line>, unreachable: bool, n: nat, b: int)
    requires lines != []
    ensures forall i :: i != |lines| - 1 ==>
      (Records(lines, i, unreachable, n, b) <==> Records(Front(lines), i, unreachable, n, b))
    ensures Records(lines, |lines| - 1, unreachable, n, b) <==> RecordsHere(lines, unreachable, n, b)
  {
    assert lines[..|lines|] == lines;
    DroppedIs(lines, |lines| - 1, unreachable);
    forall i | i != |lines| - 1
      ensures Records(lines, i, unreachable, n, b) <==> Records(Front(lines), i, unreachable, n, b)
    {
      if 0 <= i < |lines| - 1 {
        assert Front(lines)[..i + 1] == lines[..i + 1];
        DroppedIs(lines, i, unreachable);
        DroppedIs(Front(lines), i, unreachable);
      }
      hide Number, Dropped, DroppedAt;
    }
    hide Number, Dropped, DroppedAt;
  }

  lemma RecordsStep(lines: seq<Line>, unreachable: bool, n: nat, b: int)
    requires lines != []
    ensures SomeRecords(lines, unreachable, n, b) <==>
      SomeRecords(Front(lines), unreachable, n, b) || RecordsHere(lines, unreachable, n, b)
  {
    RecordsEarlier(lines, unreachable, n, b);
    hide Records, RecordsHere;
    if i :| Records(Front(lines), i, unreachable, n, b) {
      InFront(lines, i, unreachable, n, b);
      assert Records(lines, i, unreachable, n, b);
    }
    if i :| Records(lines, i, unreachable, n, b) {
      assert i == |lines| - 1 || Records(Front(lines), i, unreachable, n, b);
    }
  }

  lemma InFront(lines: seq<Line>, i: int, unreachable: bool, n: nat, b: int)
    requires lines != [] && Records(Front(lines), i, unreachable, n, b)
    ensures i < |lines| - 1 && Front(lines)[i] == lines[i]
  {}

  lemma LastRecordNew(lines: seq<Line>, unreachable: bool, n: nat, b: int, taken: nat)
    requires lines != [] && RecordsHere(lines, unreachable, n, b)
    ensures SomeLastRecord(lines, unreachable, n, b, taken) <==> Last(lines).kind.taken == taken
  {
    RecordsEarlier(lines, unreachable, n, b);
    hide Number, Dropped, DroppedAt;
    var last, t := |lines| - 1, Last(lines).kind.taken;
    assert Records(lines, last, unreachable, n, b);
    assert LastRecord(lines, last, unreachable, n, b, t);
  }

  lemma SameLastRecord(lines: seq<Line>, i: int, unreachable: bool, n: nat, b: int, taken: nat)
    requires lines != [] && !RecordsHere(lines, unreachable, n, b)
    ensures LastRecord(lines, i, unreachable, n, b, taken) <==> LastRecord(Front(lines), i, unreachable, n, b, taken)
  {
    RecordsEarlier(lines, unreachable, n, b);
    hide RecordsHere;
    if Records(Front(lines), i, unreachable, n, b) {
      InFront(lines, i, unreachable, n, b);
    }
    assert Records(lines, i, unreachable, n, b) <==> Records(Front(lines), i, unreachable, n, b);
    hide Records;
  }

  lemma LastRecordAgain(lines: seq<Line>, unreachable: bool, n: nat, b: int, taken: nat)
    requires lines != [] && !RecordsHere(lines, unreachable, n, b)
    ensures SomeLastRecord(lines, unreachable, n, b, taken) <==> SomeLastRecord(Front(lines), unreachable, n, b, taken)
  {
    hide LastRecord;
    forall i
      ensures LastRecord(lines, i, unreachable, n, b, taken) <==> LastRecord(Front(lines), i, unreachable, n, b, taken)
    {
      SameLastRecord(lines, i, unreachable, n, b, taken);
    }
  }

  /** A branch is reported exactly when a record of it is not dropped, and with what the last such
      record says. Whether the record lies in an excluded region does not matter by itself. */
  lemma {:induction false} ReportedBranches(lines: seq<Line>, unreachable: bool, n: nat, b: int, taken: nat)
    ensures b in BranchesAt(Reported(lines, unreachable).branches, n) <==> SomeRecords(lines, unreachable, n, b)
    ensures b in BranchesAt(Reported(lines, unreachable).branches, n)
        && BranchesAt(Reported(lines, unreachable).branches, n)[b] == taken
      <==> SomeLastRecord(lines, unreachable, n, b, taken)
  {
    if lines != [] {
      ReportedBranches(Front(lines), unreachable, n, b, taken);
      RecordsStep(lines, unreachable, n, b);
      ReportedStep(lines, unreachable);
      if RecordsHere(lines, unreachable, n, b) {
        LastRecordNew(lines, unreachable, n, b, taken);
      } else {
        LastRecordAgain(lines, unreachable, n, b, taken);
      }
      hide Reported, Number, Excluded, LastCode, Dropped, SomeRecords, SomeLastRecord;
    }
  }

  /** The i-th line read is counted among those that are no code: a line marked so, or an excluded one. */
  ghost predicate SaysNoCode(lines: seq<Line>, i: int, n: nat) {
    && 0 <= i < |lines| && Number(lines[..i + 1]) == n
    && if Excluded(lines[..i + 1]) then !lines[i].kind.Branch? && !lines[i].kind.Other?
       else lines[i].noncode && (lines[i].kind.Dash? || lines[i].kind.Hash?)
  }

  ghost predicate SomeNoCode(lines: seq<Line>, n: nat) {
    exists i :: SaysNoCode(lines, i, n)
  }

  lemma NoCodeStep(lines: seq<Line>, n: nat)
    requires lines != []
    ensures SomeNoCode(lines, n) <==> SomeNoCode(Front(lines), n) || SaysNoCode(lines, |lines| - 1, n)
  {
    hide Number, Excluded;
    forall i | i < |lines| - 1
      ensures SaysNoCode(lines, i, n) <==> SaysNoCode(Front(lines), i, n)
    {
      if 0 <= i {
        assert Front(lines)[..i + 1] == lines[..i + 1];
      }
    }
    if i :| SaysNoCode(Front(lines), i, n) {
      assert i < |lines| - 1;
      assert SaysNoCode(lines, i, n);
    }
    if i :| SaysNoCode(lines, i, n) {
      assert i == |lines| - 1 || SaysNoCode(Front(lines), i, n);
    }
  }

  /** A line is reported as no code exactly when some line read says so. */
  lemma {:induction false} ReportedNoncode(lines: seq<Line>, unreachable: bool, n: nat)
    ensures n in Reported(lines, unreachable).noncode <==> SomeNoCode(lines, n)
  {
    if lines != [] {
      ReportedNoncode(Front(lines), unreachable, n);
      NoCodeStep(lines, n);
      LastNoCode(lines, unreachable, n);
      hide *;
    }
  }

  lemma LastNoCode(lines: seq<Line>, unreachable: bool, n: nat)
    requires lines != []
    ensures n in Reported(lines, unreachable).noncode <==>
      n in Reported(Front(lines), unreachable).noncode || SaysNoCode(lines, |lines| - 1, n)
  {
    ReportedStep(lines, unreachable);
    assert lines[..|lines|] == lines;
    hide Reported, Number, Excluded;
  }

  /** The number a line counts under is the last one read up to it, and 0 before any. */
  lemma {:induction false} NumberIs(lines: seq<Line>, k: nat)
    requires k <= |lines| && forall j :: k <= j < |lines| ==> lines[j].number.None?
    ensures Number(lines) == if k == 0 then 0 else Number(lines[..k])
    ensures k > 0 && lines[k - 1].number.Some? ==> Number(lines) == lines[k - 1].number.value
  {
    if k < |lines| {
      NumberIs(Front(lines), k);
      assert Front(lines)[..k] == lines[..k];
    } else {
      assert lines[..k] == lines;
    }
  }

  /** The markers count line by line, in order. */
  lemma {:induction false} MarkersInOrder(lines: seq<Line>, i: nat)
    requires i < |lines|
    ensures Markers(lines[..i]) + lines[i].markers <= Markers(lines)
    ensures i == |lines| - 1 ==> Markers(lines[..i]) + lines[i].markers == Markers(lines)
  {
    if i < |lines| - 1 {
      MarkersInOrder(Front(lines), i);
      assert Front(lines)[..i] == lines[..i];
    }
  }

  /** A line is excluded exactly when it is marked itself or lies behind an unclosed start. */
  lemma ExcludedExactly(lines: seq<Line>)
    requires lines != []
    ensures Excluded(lines) <==> MarksLine(Last(lines).markers) || SomeUnclosed(Markers(lines))
  {
    DepthPositive(Markers(lines));
  }
}
