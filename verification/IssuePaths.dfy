/** Where a long issue path is cut, and that what is left is still text. */
module IssuePaths {
  import opened Bytes
  import opened Utf8
  import opened Utf8Text
  import opened ValidationIssues

  /** The place to cut from: the last start of a rune that leaves room for the marker in 1024 bytes. */
  predicate CutsFrom(path: Text, n: nat) {
    && n <= 1012 && 1012 < |path|
    && (n == 0 || !Continues(path[n])) && forall i | n < i <= 1012 :: Continues(path[i])
  }

  /** A segment ends before position `k`: behind a dot or a closing bracket. */
  predicate StopsAt(path: Text, k: nat)
    requires k <= |path|
  {
    k > 0 && (path[k - 1] == 0x2e || path[k - 1] == 0x5d)
  }

  /** The last such position up to `n`, or 1. */
  predicate LastStop(path: Text, n: nat, k: nat) {
    && 1 <= k <= n <= |path| && (k == 1 || StopsAt(path, k))
    && forall i | k < i <= n :: !StopsAt(path, i)
  }

  lemma {:induction false} RuneStartIs(path: Text, m: nat)
    requires m < |path|
    ensures var n := RuneStartBefore(path, m);
            (n == 0 || !Continues(path[n])) && forall i | n < i <= m :: Continues(path[i])
    decreases m
  {
    if m > 0 && !RuneStart(path[m]) { RuneStartIs(path, m - 1); }
  }

  lemma {:induction false} DropIs(path: Text, n: nat)
    requires 1 <= n <= |path|
    ensures exists k: nat | k <= n :: LastStop(path, n, k) && DropPartSegment(path[..n]) == path[..k]
    decreases n
  {
    var prefix := path[..n];
    if n > 1 && !StopsAt(path, n) {
      assert prefix[..n - 1] == path[..n - 1];
      DropIs(path, n - 1);
      var k: nat :| k <= n - 1 && LastStop(path, n - 1, k) && DropPartSegment(path[..n - 1]) == path[..k];
      assert LastStop(path, n, k);
    } else {
      assert LastStop(path, n, n);
    }
  }

  /** Without the dot it may end in. */
  function Undotted(path: Text, k: nat): Text
    requires 1 <= k <= |path|
  {
    if path[k - 1] == 0x2e then path[..k - 1] else path[..k]
  }

  lemma CutIsFirst(path: Text, m: nat, n: nat)
    requires CutsFrom(path, m) && CutsFrom(path, n)
    ensures m <= n
  {
  }

  lemma StopIsLast(path: Text, n: nat, j: nat, k: nat)
    requires LastStop(path, n, j) && LastStop(path, n, k)
    ensures j <= k
  {
  }

  lemma CutFrom(path: Text, n: nat)
    requires |path| > 1024 && CutsFrom(path, n)
    ensures RuneStartBefore(path, 1012) == n
  {
    RuneStartIs(path, 1012);
    hide RuneStartBefore;
    CutIsFirst(path, RuneStartBefore(path, 1012), n);
    CutIsFirst(path, n, RuneStartBefore(path, 1012));
  }

  lemma DropAt(path: Text, n: nat, k: nat)
    requires LastStop(path, n, k)
    ensures DropPartSegment(path[..n]) == path[..k] && TrimDot(path[..k]) == Undotted(path, k)
  {
    DropIs(path, n);
    hide DropPartSegment;
    var j: nat :| j <= n && LastStop(path, n, j) && DropPartSegment(path[..n]) == path[..j];
    StopIsLast(path, n, j, k);
    StopIsLast(path, n, k, j);
    assert j == k;
    assert path[..k][|path[..k]| - 1] == path[k - 1];
    assert path[..k][..k - 1] == path[..k - 1];
  }

  /** What is left of the path. */
  function Cut(path: Text, n: nat, k: nat): Text
    requires 1 <= k <= |path| && n < |path|
  {
    if path[n] in {0x2e, 0x5b} then path[..n] else Undotted(path, k)
  }

  /**
   A path over 1024 bytes is cut before the last rune that leaves room for the
   marker if a segment starts there, and otherwise behind the last segment that
   ends before it, and gets the marker.
   */
  lemma CutExactly(path: Text, n: nat, k: nat)
    requires |path| > 1024 && CutsFrom(path, n) && LastStop(path, n, k)
    ensures Truncated(path) ==
            Cut(path, n, k) + [0x2e, 0x3c, 0x74, 0x72, 0x75, 0x6e, 0x63, 0x61, 0x74, 0x65, 0x64, 0x3e]
  {
    CutFrom(path, n);
    DropAt(path, n, k);
    hide RuneStartBefore, DropPartSegment, TrimDot, Undotted, CutsFrom;
  }

  /** There is a last stop before any place to cut text from. */
  lemma SomeStop(path: Text, n: nat) returns (k: nat)
    requires |path| > 1024 && Valid(path) && CutsFrom(path, n)
    ensures LastStop(path, n, k)
  {
    RunesStart(path, 1009);
    hide Valid;
    assert n > 0;
    DropIs(path, n);
    hide DropPartSegment, LastStop;
    k :| k <= n && LastStop(path, n, k) && DropPartSegment(path[..n]) == path[..k];
  }

  /** Text has the start of a rune among any four bytes, so the place to cut from is never the front. */
  lemma {:induction false} RunesStart(s: Text, i: nat)
    requires Valid(s) && i + 3 < |s|
    ensures !Continues(s[i]) || !Continues(s[i + 1]) || !Continues(s[i + 2]) || !Continues(s[i + 3])
    decreases i
  {
    var w := RuneWidth(s);
    if i >= w {
      hide RuneWidth, Continues;
      RunesStart(s[w..], i - w);
    } else if w < |s| {
      assert !Continues(s[w..][0]);
    }
  }

  /** Some byte of the path before the cut ends a segment, or one starts at it. */
  predicate Segmented(path: Text, n: nat)
    requires n < |path|
  {
    path[n] in {0x2e, 0x5b} || exists i | 1 <= i < n :: path[i] in {0x2e, 0x5d}
  }

  lemma Marked(p: Text)
    requires Valid(p)
    ensures Valid(p + MARKER)
  {
    AsciiText(MARKER);
    JoinText(p, MARKER);
  }

  /** What is cut of text is text if its first byte is ASCII, as in the client, or a segment ends in time. */
  lemma CutIsText(path: Text, n: nat)
    requires |path| > 1024 && Valid(path) && CutsFrom(path, n) && (path[0] < 0x80 || Segmented(path, n))
    ensures Valid(Truncated(path))
  {
    hide Valid, Truncated;
    var k := SomeStop(path, n);
    CutExactly(path, n, k);
    if path[n] in {0x2e, 0x5b} {
      CutText(path, n);
    } else {
      StopIsAscii(path, n, k);
      hide LastStop, CutsFrom;
      CutAfterAscii(path, k - 1);
    }
    Marked(Cut(path, n, k));
  }

  lemma StopIsAscii(path: Text, n: nat, k: nat)
    requires n < |path| && LastStop(path, n, k) && path[n] !in {0x2e, 0x5b} && (path[0] < 0x80 || Segmented(path, n))
    ensures path[k - 1] < 0x80
  {
    if path[0] >= 0x80 {
      var i :| 1 <= i < n && path[i] in {0x2e, 0x5d};
      assert StopsAt(path, i + 1);
    }
  }

  lemma NoStop(path: Text, n: nat)
    requires 1 <= n < |path| && !Segmented(path, n)
    ensures LastStop(path, n, 1)
  {
    forall i | 1 < i <= n ensures !StopsAt(path, i) {
      assert path[i - 1] !in {0x2e, 0x5d};
    }
  }

  /** Without either, one byte of the first rune is left, which is no text. */
  lemma CutIsNoText(path: Text, n: nat)
    requires |path| > 1024 && Valid(path) && CutsFrom(path, n) && path[0] >= 0x80 && !Segmented(path, n)
    ensures !Valid(Truncated(path))
  {
    hide Truncated;
    var k := SomeStop(path, n);
    NoStop(path, n);
    CutExactly(path, n, 1);
    hide LastStop, CutsFrom;
    Alone(path[0], MARKER[1..]);
    assert Truncated(path) == [path[0]] + ([0x2e] + MARKER[1..]);
  }

  /** A byte that is not ASCII is no rune when a dot follows it. */
  lemma Alone(b: Byte, rest: Text)
    requires b >= 0x80
    ensures !Valid([b] + ([0x2e] + rest))
  {
    assert ([b] + ([0x2e] + rest))[1] == 0x2e;
  }

  /** A truncated path is text exactly when it was not cut, begins with ASCII, or a segment ends in time. */
  lemma TruncatedIsText(path: Text)
    requires Valid(path)
    ensures Valid(Truncated(path)) <==>
              |path| <= 1024 || path[0] < 0x80 || Segmented(path, RuneStartBefore(path, 1012))
  {
    hide Valid, Segmented, CutPrefix;
    if |path| > 1024 {
      var n := RuneStartBefore(path, 1012);
      RuneStartIs(path, 1012);
      hide RuneStartBefore;
      if path[0] < 0x80 || Segmented(path, n) { CutIsText(path, n); } else { CutIsNoText(path, n); }
    }
  }

  /** Counts add up to at most 2^31 - 1. */
  lemma CountsExactly(current: nat, increment: nat)
    requires current <= 2_147_483_647
    ensures CountUp(current, increment) ==
            if current + increment <= 2_147_483_647 then current + increment else 2_147_483_647
  {
  }
}
