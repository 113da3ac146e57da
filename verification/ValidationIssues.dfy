/** The bounded aggregate of validation issues. */
module ValidationIssues {
  import opened Bytes

  const MAX_ISSUES: nat := 32
  const MAX_ISSUE_PATH: nat := 1024
  const MAX_PATHS: nat := 16384
  const MAX_COUNT: nat := 0x7fff_ffff
  /** ".<truncated>" */
  const MARKER: Text := [0x2e, 0x3c, 0x74, 0x72, 0x75, 0x6e, 0x63, 0x61, 0x74, 0x65, 0x64, 0x3e]
  const DOT: Byte := 0x2e
  const OPEN: Byte := 0x5b
  const CLOSE: Byte := 0x5d
  /** Issues that always fit the path budget. */
  const ALWAYS_KEPT: nat := 16

  datatype IssueCode = Required | NullNotAllowed | TypeMismatch | NonFinite | InvalidJSON | Cycle | InvalidUnicode

  datatype Issue = Issue(code: IssueCode, path: Text)

  // ----- path truncation -----

  predicate RuneStart(b: Byte) { b < 0x80 || b >= 0xc0 }

  /** The last rune start at or before `n`, or 0. */
  function RuneStartBefore(path: Text, n: nat): (m: nat)
    requires n < |path|
    ensures m <= n && (m == 0 || RuneStart(path[m]))
  {
    if n > 0 && !RuneStart(path[n]) then RuneStartBefore(path, n - 1) else n
  }

  /** Drops bytes after the last segment end. */
  function DropPartSegment(prefix: Text): (r: Text)
    ensures r <= prefix
    ensures |r| <= 1 || r[|r| - 1] == DOT || r[|r| - 1] == CLOSE
  {
    if |prefix| > 1 && prefix[|prefix| - 1] != DOT && prefix[|prefix| - 1] != CLOSE
    then DropPartSegment(prefix[..|prefix| - 1]) else prefix
  }

  function TrimDot(s: Text): Text {
    if s != [] && s[|s| - 1] == DOT then s[..|s| - 1] else s
  }

  function CutPrefix(path: Text): Text
    requires |path| > MAX_ISSUE_PATH
  {
    var n := RuneStartBefore(path, MAX_ISSUE_PATH - |MARKER|);
    if path[n] != DOT && path[n] != OPEN then TrimDot(DropPartSegment(path[..n])) else path[..n]
  }

  function Truncated(path: Text): Text {
    if |path| <= MAX_ISSUE_PATH then path else CutPrefix(path) + MARKER
  }

  /** A prefix that stops where a segment of the path does. */
  predicate Whole(p: Text, path: Text) {
    p < path && (|p| <= 1 || p[|p| - 1] == CLOSE || path[|p|] == DOT || path[|p|] == OPEN)
  }

  lemma TrimmedWhole(d: Text, path: Text)
    requires d < path && (|d| <= 1 || d[|d| - 1] == DOT || d[|d| - 1] == CLOSE)
    ensures Whole(TrimDot(d), path) && |TrimDot(d)| <= |d|
  {
  }

  lemma CutWhole(path: Text)
    requires |path| > MAX_ISSUE_PATH
    ensures Whole(CutPrefix(path), path) && |CutPrefix(path)| + |MARKER| <= MAX_ISSUE_PATH
  {
    hide RuneStartBefore, DropPartSegment, TrimDot;
    var n := RuneStartBefore(path, MAX_ISSUE_PATH - |MARKER|);
    var d := DropPartSegment(path[..n]);
    assert path[..n] < path && d <= path[..n];
    TrimmedWhole(d, path);
  }

  /** A path that is cut keeps whole leading segments and gains the marker. */
  lemma TruncatedShape(path: Text)
    ensures |Truncated(path)| <= MAX_ISSUE_PATH
    ensures |path| > MAX_ISSUE_PATH ==> Truncated(path) == CutPrefix(path) + MARKER && Whole(CutPrefix(path), path)
  {
    hide CutPrefix, Whole;
    if |path| > MAX_ISSUE_PATH { CutWhole(path); }
  }

  method TruncatePath(path: Text) returns (r: Text)
    ensures r == Truncated(path)
  {
    if |path| <= MAX_ISSUE_PATH { return path; }
    var n := MAX_ISSUE_PATH - |MARKER|;
    while n > 0 && !RuneStart(path[n])
      invariant 0 <= n < |path| && RuneStartBefore(path, n) == RuneStartBefore(path, MAX_ISSUE_PATH - |MARKER|)
    {
      n := n - 1;
    }
    var prefix := path[..n];
    if path[n] != DOT && path[n] != OPEN {
      while |prefix| > 1 && prefix[|prefix| - 1] != DOT && prefix[|prefix| - 1] != CLOSE
        invariant DropPartSegment(prefix) == DropPartSegment(path[..n])
      {
        prefix := prefix[..|prefix| - 1];
      }
      prefix := TrimDot(prefix);
    }
    return prefix + MARKER;
  }

  // ----- the aggregate -----

  datatype Aggregate = Aggregate(issues: seq<Issue>, count: nat, pathBytes: nat)

  const EMPTY: Aggregate := Aggregate([], 0, 0)

  function Snapshot(issue: Issue): Issue {
    issue.(path := Truncated(issue.path))
  }

  function CountUp(current: nat, increment: int): nat {
    if increment <= 0 then current
    else if current >= MAX_COUNT - increment then MAX_COUNT
    else current + increment
  }

  function Retain(a: Aggregate, issue: Issue): Aggregate {
    var snapshot := Snapshot(issue);
    if |a.issues| >= MAX_ISSUES || a.pathBytes + |snapshot.path| > MAX_PATHS then a
    else a.(issues := a.issues + [snapshot], pathBytes := a.pathBytes + |snapshot.path|)
  }

  function RetainAll(a: Aggregate, issues: seq<Issue>, n: nat): Aggregate
    requires n <= |issues|
  {
    if n == 0 then a else Retain(RetainAll(a, issues, n - 1), issues[n - 1])
  }

  function AddIssue(a: Aggregate, issue: Issue): Aggregate {
    Retain(a.(count := CountUp(a.count, 1)), issue)
  }

  function Merge(a: Aggregate, other: Aggregate): Aggregate {
    RetainAll(a.(count := CountUp(a.count, other.count)), other.issues, |other.issues|)
  }

  class ValidationErrors {
    var issues: seq<Issue>
    var issueCount: nat
    var totalPathBytes: nat

    function View(): Aggregate
      reads this
    {
      Aggregate(issues, issueCount, totalPathBytes)
    }

    constructor ()
      ensures View() == EMPTY
    {
      issues, issueCount, totalPathBytes := [], 0, 0;
    }

    method RetainIssue(issue: Issue)
      modifies this
      ensures View() == Retain(old(View()), issue)
    {
      if |issues| >= MAX_ISSUES { return; }
      var path := TruncatePath(issue.path);
      var snapshot := issue.(path := path);
      if totalPathBytes + |path| > MAX_PATHS { return; }
      totalPathBytes := totalPathBytes + |path|;
      issues := issues + [snapshot];
    }

    /** Takes an issue or another aggregate, itself included, and refuses any other error. */
    method Add(err: Failure) returns (taken: bool)
      modifies this
      ensures taken <==> !err.Foreign?
      ensures View() ==
              match err {
                case Foreign => old(View())
                case OneIssue(issue) => AddIssue(old(View()), issue)
                case Several(errors) => if errors == null then old(View()) else Merge(old(View()), old(errors.View()))
              }
    {
      match err
      case Several(errors) =>
        MergeWith(errors);
        return true;
      case Foreign => return false;
      case OneIssue(issue) =>
        issueCount := CountUp(issueCount, 1);
        RetainIssue(issue);
        return true;
    }

    method MergeWith(other: ValidationErrors?)
      modifies this
      ensures View() == if other == null then old(View()) else Merge(old(View()), old(other.View()))
    {
      hide Retain;
      if other == null { return; }
      var offered := other.issues;
      issueCount := CountUp(issueCount, other.issueCount);
      ghost var start := View();
      var i := 0;
      while i < |offered|
        invariant 0 <= i <= |offered|
        invariant View() == RetainAll(start, offered, i)
      {
        RetainIssue(offered[i]);
        i := i + 1;
      }
    }
  }

  /** An error handed to an aggregate. */
  datatype Failure = OneIssue(issue: Issue) | Several(errors: ValidationErrors?) | Foreign

  // ----- any nesting of issues and aggregates -----

  /** One issue, or the reports collected by a nested aggregate. */
  datatype Report = One(issue: Issue) | Group(parts: seq<Report>)

  function Add(a: Aggregate, r: Report): Aggregate
    decreases r, 0
  {
    match r
    case One(issue) => AddIssue(a, issue)
    case Group(parts) => Merge(a, Collect(r, |parts|))
  }

  /** The aggregate of the first `n` parts of a group. */
  function Collect(r: Report, n: nat): Aggregate
    requires r.Group? && n <= |r.parts|
    decreases r, 0, n
  {
    if n == 0 then EMPTY else Add(Collect(r, n - 1), r.parts[n - 1])
  }

  /** Every issue in a report, in order, with its path truncated. */
  function Issues(r: Report): seq<Issue>
    decreases r, 0
  {
    match r
    case One(issue) => [Snapshot(issue)]
    case Group(parts) => IssuesUpTo(r, |parts|)
  }

  function IssuesUpTo(r: Report, n: nat): seq<Issue>
    requires r.Group? && n <= |r.parts|
    decreases r, 0, n
  {
    if n == 0 then [] else IssuesUpTo(r, n - 1) + Issues(r.parts[n - 1])
  }

  /** `a` is `b` with some elements left out. */
  predicate Selection(a: seq<Issue>, b: seq<Issue>) {
    a == [] || (b != [] && ((a[0] == b[0] && Selection(a[1..], b[1..])) || Selection(a, b[1..])))
  }

  lemma {:induction false} SelectionShorter(a: seq<Issue>, b: seq<Issue>)
    requires Selection(a, b)
    ensures |a| <= |b|
    decreases |b|
  {
    if a != [] {
      if a[0] == b[0] && Selection(a[1..], b[1..]) {
        SelectionShorter(a[1..], b[1..]);
      } else {
        SelectionShorter(a, b[1..]);
      }
    }
  }

  lemma {:induction false} SelectionConcat(a: seq<Issue>, b: seq<Issue>, c: seq<Issue>, d: seq<Issue>)
    requires Selection(a, b) && Selection(c, d)
    ensures Selection(a + c, b + d)
    decreases |b|
  {
    if b == [] {
      assert a + c == c && b + d == d;
    } else {
      assert (b + d)[1..] == b[1..] + d;
      if a == [] {
        SelectionConcat([], b[1..], c, d);
      } else if a[0] == b[0] && Selection(a[1..], b[1..]) {
        SelectionConcat(a[1..], b[1..], c, d);
        assert (a + c)[1..] == a[1..] + c;
      } else {
        SelectionConcat(a, b[1..], c, d);
      }
    }
  }

  lemma {:induction false} SelectionTransitive(a: seq<Issue>, b: seq<Issue>, c: seq<Issue>)
    requires Selection(a, b) && Selection(b, c)
    ensures Selection(a, c)
    decreases |c|
  {
    if a != [] {
      if b[0] == c[0] && Selection(b[1..], c[1..]) {
        if a[0] == b[0] && Selection(a[1..], b[1..]) {
          SelectionTransitive(a[1..], b[1..], c[1..]);
        } else {
          SelectionTransitive(a, b[1..], c[1..]);
        }
      } else {
        SelectionTransitive(a, b, c[1..]);
      }
    }
  }

  function PathBytes(issues: seq<Issue>): nat {
    if issues == [] then 0 else PathBytes(issues[..|issues| - 1]) + |issues[|issues| - 1].path|
  }

  function Min(a: nat, b: nat): nat { if a < b then a else b }

  /** What an aggregate owes to the issues `all` reported to it. */
  ghost predicate Summarises(a: Aggregate, all: seq<Issue>) {
    && Bounded(a)
    && a.count == Min(|all|, MAX_COUNT)
    && Selection(a.issues, all)
    && Opening(a.issues, all)
  }

  ghost predicate Bounded(a: Aggregate) {
    && |a.issues| <= MAX_ISSUES
    && a.pathBytes == PathBytes(a.issues) <= MAX_PATHS
    && (forall i | 0 <= i < |a.issues| :: |a.issues[i].path| <= MAX_ISSUE_PATH)
  }

  /** The first issues reported are the first ones kept. */
  ghost predicate Opening(kept: seq<Issue>, all: seq<Issue>) {
    var n := Min(|all|, ALWAYS_KEPT);
    n <= |kept| && kept[..n] == all[..n]
  }

  lemma {:induction false} PathBytesFew(issues: seq<Issue>)
    requires forall i | 0 <= i < |issues| :: |issues[i].path| <= MAX_ISSUE_PATH
    ensures PathBytes(issues) <= |issues| * MAX_ISSUE_PATH
  {
    if issues != [] { PathBytesFew(issues[..|issues| - 1]); }
  }

  /** Retaining one issue keeps the bounds and always keeps an early issue. */
  lemma RetainOne(a: Aggregate, issue: Issue)
    requires Bounded(a)
    ensures Bounded(Retain(a, issue)) && Retain(a, issue).count == a.count
    ensures Retain(a, issue).issues == a.issues || Retain(a, issue).issues == a.issues + [Snapshot(issue)]
    ensures |a.issues| < ALWAYS_KEPT ==> Retain(a, issue).issues == a.issues + [Snapshot(issue)]
  {
    hide Truncated;
    TruncatedShape(issue.path);
    PathBytesFew(a.issues);
    var grown := a.issues + [Snapshot(issue)];
    assert grown[..|grown| - 1] == a.issues;
  }

  ghost predicate ShortPaths(issues: seq<Issue>) {
    forall i | 0 <= i < |issues| :: |issues[i].path| <= MAX_ISSUE_PATH
  }

  /** Retaining truncated issues appends a selection of them. */
  lemma {:induction false} RetainSelects(a: Aggregate, issues: seq<Issue>, n: nat)
    requires Bounded(a) && n <= |issues| && ShortPaths(issues)
    ensures var r := RetainAll(a, issues, n);
            Bounded(r) && r.count == a.count && a.issues <= r.issues && Selection(r.issues[|a.issues|..], issues[..n])
    decreases n
  {
    hide Retain, Bounded, Selection;
    if n == 0 {
      SelectionNothing(issues[..0]);
      assert a.issues[|a.issues|..] == [];
    } else {
      RetainSelects(a, issues, n - 1);
      var mid, last := RetainAll(a, issues, n - 1), issues[n - 1];
      RetainOne(mid, last);
      var r := Retain(mid, last);
      var before := mid.issues[|a.issues|..];
      var tail := r.issues[|mid.issues|..];
      SelectionOne(last);
      SelectionConcat(before, issues[..n - 1], tail, [last]);
      assert issues[..n] == issues[..n - 1] + [last];
      assert r.issues[|a.issues|..] == before + tail;
    }
  }

  lemma SelectionNothing(b: seq<Issue>)
    ensures Selection([], b)
  {
  }

  lemma SelectionOne(last: Issue)
    ensures Selection([], [last]) && Selection([last], [last])
  {
  }

  /** The first issues offered to a short aggregate all stay. */
  lemma {:induction false} RetainKeepsEarly(a: Aggregate, issues: seq<Issue>, k: nat, n: nat)
    requires Bounded(a) && k <= n <= |issues| && ShortPaths(issues)
    requires |a.issues| + k <= ALWAYS_KEPT
    ensures a.issues + issues[..k] <= RetainAll(a, issues, n).issues
    ensures n == k ==> a.issues + issues[..k] == RetainAll(a, issues, n).issues
    decreases n
  {
    hide Retain, Bounded;
    if n == 0 {
      assert a.issues + issues[..0] == a.issues;
    } else {
      RetainSelects(a, issues, n - 1);
      RetainOne(RetainAll(a, issues, n - 1), issues[n - 1]);
      if k == n {
        RetainKeepsEarly(a, issues, n - 1, n - 1);
        assert a.issues + issues[..n] == a.issues + issues[..n - 1] + [issues[n - 1]];
      } else {
        RetainKeepsEarly(a, issues, k, n - 1);
      }
    }
  }

  /** Adding one report of any nesting keeps the summary true. */
  lemma {:induction false} AddSummarises(a: Aggregate, all: seq<Issue>, r: Report)
    requires Summarises(a, all)
    ensures Summarises(Add(a, r), all + Issues(r))
    decreases r, 1
  {
    hide Retain, Bounded, Selection, Summarises;
    match r
    case One(issue) => AddIssueSummarises(a, all, issue);
    case Group(parts) =>
      CollectSummarises(r, |parts|);
      MergeSummarises(a, all, Collect(r, |parts|), Issues(r));
  }

  lemma {:induction false} CollectSummarises(r: Report, n: nat)
    requires r.Group? && n <= |r.parts|
    ensures Summarises(Collect(r, n), IssuesUpTo(r, n))
    decreases r, 0, n
  {
    hide Add, Issues;
    if n > 0 {
      CollectSummarises(r, n - 1);
      AddSummarises(Collect(r, n - 1), IssuesUpTo(r, n - 1), r.parts[n - 1]);
    }
  }

  lemma AddIssueSummarises(a: Aggregate, all: seq<Issue>, issue: Issue)
    requires Summarises(a, all)
    ensures Summarises(AddIssue(a, issue), all + [Snapshot(issue)])
  {
    hide Retain, Selection, Bounded, Truncated;
    var one := Snapshot(issue);
    var b := Aggregate([one], 1, |one.path|);
    OneSummarised(issue);
    MergeSummarises(a, all, b, [one]);
    RetainSnapshot(a.(count := CountUp(a.count, 1)), issue);
    assert RetainAll(a.(count := CountUp(a.count, 1)), [one], 0) == a.(count := CountUp(a.count, 1));
  }

  lemma RetainSnapshot(a: Aggregate, issue: Issue)
    ensures Retain(a, Snapshot(issue)) == Retain(a, issue)
  {
    hide CutPrefix;
    TruncatedShape(issue.path);
  }

  lemma OneSummarised(issue: Issue)
    ensures Summarises(Aggregate([Snapshot(issue)], 1, |Snapshot(issue).path|), [Snapshot(issue)])
  {
    hide Truncated;
    var one := Snapshot(issue);
    TruncatedShape(issue.path);
    SelectionOne(one);
    assert [one][..0] == [];
    assert PathBytes([one]) == PathBytes([]) + |one.path|;
  }

  /** Merging counts both and adds a selection of what the other kept. */
  lemma MergeRetains(a: Aggregate, b: Aggregate)
    requires Bounded(a) && Bounded(b)
    ensures var r := Merge(a, b);
            && Bounded(r) && r.count == CountUp(a.count, b.count) && a.issues <= r.issues
            && Selection(r.issues[|a.issues|..], b.issues)
  {
    hide RetainAll, Selection, Bounded, CountUp;
    var start := a.(count := CountUp(a.count, b.count));
    SameBounds(a, start);
    ShortPathsOf(b);
    RetainSelects(start, b.issues, |b.issues|);
    assert b.issues[..|b.issues|] == b.issues;
  }

  lemma MergeCounts(a: Aggregate, all: seq<Issue>, b: Aggregate, more: seq<Issue>)
    requires a.count == Min(|all|, MAX_COUNT) && b.count == Min(|more|, MAX_COUNT)
    ensures CountUp(a.count, b.count) == Min(|all + more|, MAX_COUNT)
  {
  }

  lemma MergeSelects(kept: seq<Issue>, all: seq<Issue>, grown: seq<Issue>, offered: seq<Issue>, more: seq<Issue>)
    requires Selection(kept, all) && kept <= grown && Selection(grown[|kept|..], offered) && Selection(offered, more)
    ensures Selection(grown, all + more)
  {
    hide Selection;
    var added := grown[|kept|..];
    SelectionTransitive(added, offered, more);
    SelectionConcat(kept, all, added, more);
    assert grown == kept + added;
  }

  lemma MergeSummarises(a: Aggregate, all: seq<Issue>, b: Aggregate, more: seq<Issue>)
    requires Summarises(a, all) && Summarises(b, more)
    ensures Summarises(Merge(a, b), all + more)
  {
    hide Selection, Bounded, Opening, Merge, CountUp, Min;
    var r := Merge(a, b);
    MergeRetains(a, b);
    MergeCounts(a, all, b, more);
    MergeSelects(a.issues, all, r.issues, b.issues, more);
    MergeOpens(a, all, b, more, r);
  }

  lemma SameBounds(a: Aggregate, b: Aggregate)
    requires Bounded(a) && a.issues == b.issues && a.pathBytes == b.pathBytes
    ensures Bounded(b)
  {
  }

  lemma ShortPathsOf(a: Aggregate)
    requires Bounded(a)
    ensures ShortPaths(a.issues)
  {
  }

  lemma MergeOpens(a: Aggregate, all: seq<Issue>, b: Aggregate, more: seq<Issue>, r: Aggregate)
    requires Summarises(a, all) && Summarises(b, more) && r == Merge(a, b) && a.issues <= r.issues
    ensures Opening(r.issues, all + more)
  {
    hide RetainAll, Selection, Bounded, Truncated;
    var start := a.(count := CountUp(a.count, b.count));
    if |all| >= ALWAYS_KEPT {
      assert r.issues[..ALWAYS_KEPT] == a.issues[..ALWAYS_KEPT];
      assert (all + more)[..ALWAYS_KEPT] == all[..ALWAYS_KEPT];
    } else {
      SelectionShorter(a.issues, all);
      assert a.issues == all by { assert a.issues[..|all|] == a.issues && all[..|all|] == all; }
      var k := Min(|more|, ALWAYS_KEPT - |all|);
      var j := Min(|more|, ALWAYS_KEPT);
      assert b.issues[..k] == b.issues[..j][..k] == more[..j][..k] == more[..k];
      SameBounds(a, start);
      ShortPathsOf(b);
      RetainKeepsEarly(start, b.issues, k, |b.issues|);
      assert (all + more)[..|all| + k] == all + more[..k];
    }
  }

  /**
   However issues and aggregates are nested, the result counts every issue up to
   the cap, keeps an order-preserving selection within the issue and path limits,
   and that selection opens with the first sixteen issues.
   */
  lemma AnyNestingSummarised(r: Report)
    requires r.Group?
    ensures Summarises(Collect(r, |r.parts|), Issues(r))
  {
    CollectSummarises(r, |r.parts|);
  }

  /** An issue is kept, behind those kept before, if and only if one of 32 places and its path's bytes are free. */
  lemma RetainsExactly(a: Aggregate, issue: Issue)
    ensures var r := Retain(a, issue);
            var kept := Issue(issue.code, Truncated(issue.path));
            && r.count == a.count
            && (if |a.issues| < 32 && a.pathBytes + |kept.path| <= 16_384
                then r.issues == a.issues + [kept] && r.pathBytes == a.pathBytes + |kept.path|
                else r.issues == a.issues && r.pathBytes == a.pathBytes)
  {
  }

  lemma {:induction false} PathBytesJoin(a: seq<Issue>, b: seq<Issue>)
    ensures PathBytes(a + b) == PathBytes(a) + PathBytes(b)
    decreases |b|
  {
    if b == [] {
      assert a + b == a;
    } else {
      var c := b[..|b| - 1];
      assert (a + b)[..|a + b| - 1] == a + c;
      PathBytesJoin(a, c);
    }
  }

  /** The issues fit an aggregate. */
  predicate Fits(issues: seq<Issue>) {
    |issues| <= 32 && PathBytes(issues) <= 16_384
  }

  lemma FrontFits(a: seq<Issue>, b: seq<Issue>)
    requires Fits(a + b)
    ensures Fits(a) && Fits(b)
  {
    PathBytesJoin(a, b);
  }

  /** The aggregate holds exactly these issues. */
  predicate HoldsAll(a: Aggregate, issues: seq<Issue>) {
    a.issues == issues && a.pathBytes == PathBytes(issues)
  }

  predicate AlreadyCut(issues: seq<Issue>) {
    forall i | 0 <= i < |issues| :: Snapshot(issues[i]) == issues[i]
  }

  lemma {:induction false} RetainsAll(a: Aggregate, held: seq<Issue>, more: seq<Issue>, n: nat)
    requires HoldsAll(a, held) && n <= |more| && Fits(held + more) && AlreadyCut(more)
    ensures HoldsAll(RetainAll(a, more, n), held + more[..n])
    decreases n
  {
    hide Truncated;
    if n == 0 {
      assert held + more[..0] == held;
    } else {
      RetainsAll(a, held, more, n - 1);
      assert held + more[..n] == held + more[..n - 1] + [more[n - 1]];
      assert held + more == held + more[..n] + more[n..];
      FrontFits(held + more[..n], more[n..]);
      PathBytesJoin(held + more[..n - 1], [more[n - 1]]);
      assert PathBytes([more[n - 1]]) == |more[n - 1].path| by { assert [more[n - 1]][..0] == []; }
      assert Snapshot(more[n - 1]) == more[n - 1];
    }
  }

  lemma {:induction false} IssuesAlreadyCut(r: Report)
    ensures AlreadyCut(Issues(r))
    decreases r, 0
  {
    match r
    case One(issue) => TruncatedShape(issue.path);
    case Group(parts) => IssuesUpToCut(r, |parts|);
  }

  lemma {:induction false} IssuesUpToCut(r: Report, n: nat)
    requires r.Group? && n <= |r.parts|
    ensures AlreadyCut(IssuesUpTo(r, n))
    decreases r, 0, n
  {
    if n > 0 {
      IssuesUpToCut(r, n - 1);
      IssuesAlreadyCut(r.parts[n - 1]);
    }
  }

  lemma AddsOne(a: Aggregate, held: seq<Issue>, issue: Issue)
    requires HoldsAll(a, held) && Fits(held + [Snapshot(issue)])
    ensures HoldsAll(AddIssue(a, issue), held + [Snapshot(issue)])
  {
    hide Truncated;
    PathBytesJoin(held, [Snapshot(issue)]);
    assert PathBytes([Snapshot(issue)]) == |Snapshot(issue).path| by { assert [Snapshot(issue)][..0] == []; }
  }

  /** While 32 places and the byte budget suffice nothing is left out, however the issues are grouped. */
  lemma {:induction false} NothingLeftOut(r: Report, n: nat)
    requires r.Group? && n <= |r.parts| && Fits(IssuesUpTo(r, n))
    ensures HoldsAll(Collect(r, n), IssuesUpTo(r, n))
    decreases r, 0, n
  {
    hide Truncated, Snapshot, AddIssue, Merge;
    if n > 0 {
      var part := r.parts[n - 1];
      var held := IssuesUpTo(r, n - 1);
      FrontFits(held, Issues(part));
      NothingLeftOut(r, n - 1);
      match part
      case One(issue) => AddsOne(Collect(r, n - 1), held, issue);
      case Group(parts) =>
        NothingLeftOut(part, |parts|);
        IssuesAlreadyCut(part);
        MergesAll(Collect(r, n - 1), held, Collect(part, |parts|), Issues(part));
    }
  }

  lemma MergesAll(a: Aggregate, held: seq<Issue>, other: Aggregate, more: seq<Issue>)
    requires HoldsAll(a, held) && HoldsAll(other, more) && Fits(held + more) && AlreadyCut(more)
    ensures HoldsAll(Merge(a, other), held + more)
  {
    hide Truncated, Snapshot, Retain;
    RetainsAll(a.(count := CountUp(a.count, other.count)), held, more, |more|);
    assert more[..|more|] == more;
  }

  /** Grouping does not change the count. */
  lemma CountIgnoresGrouping(r: Report, flat: Report)
    requires r.Group? && flat.Group? && Issues(r) == Issues(flat)
    ensures Collect(r, |r.parts|).count == Collect(flat, |flat.parts|).count
  {
    AnyNestingSummarised(r);
    AnyNestingSummarised(flat);
  }
}
