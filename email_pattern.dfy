/**
  The regular expression that `validateEmail` applies to a lower-cased address
  (utils/util.js:11), written as predicates on strings, one per part of the pattern:

    ^( [^<>()[\]\\.,;:\s@"]+(\.[^<>()[\]\\.,;:\s@"]+)*  |  .(".+") )
     @( \[[0-9]{1,3}\.[0-9]{1,3}\.[0-9]{1,3}\.[0-9]{1,3}\]  |  ([a-zA-Z\-0-9]+\.)+[a-zA-Z]{2,} )$

  A regular expression with backtracking matches when some way of splitting the input
  fits the pattern, so each repetition is an `exists` over split points.
 */
module EmailPattern {
  import opened Js

  /** `[^<>()[\]\\.,;:\s@"]`: a character allowed in an unquoted local part. */
  predicate AtomChar(c: char) {
    c !in "<>()[]\\.,;:@\"" && !IsWhitespace(c)
  }

  /** `[a-zA-Z\-0-9]`: a character allowed in a domain label. */
  predicate LabelChar(c: char) {
    IsAsciiLower(c) || IsAsciiUpper(c) || c == '-' || IsDigit(c)
  }

  /** `[a-zA-Z]` */
  predicate Letter(c: char) {
    IsAsciiLower(c) || IsAsciiUpper(c)
  }

  /** `X+` for the character class `cls`. */
  predicate Run(t: string, cls: char -> bool) {
    |t| > 0 && forall k :: 0 <= k < |t| ==> cls(t[k])
  }

  /** `(\.X+)*` */
  predicate DotRuns(t: string, cls: char -> bool)
    decreases |t|
  {
    t == [] || (t[0] == '.' && exists k :: 1 < k <= |t| && Run(t[1..k], cls) && DotRuns(t[k..], cls))
  }

  /** `X+(\.X+)*` */
  predicate DottedRuns(t: string, cls: char -> bool) {
    exists k :: 0 < k <= |t| && Run(t[..k], cls) && DotRuns(t[k..], cls)
  }

  /** `(X+\.)+` */
  predicate RunsDotted(t: string, cls: char -> bool)
    decreases |t|
  {
    exists k :: 0 < k < |t| && Run(t[..k], cls) && t[k] == '.' && (k + 1 == |t| || RunsDotted(t[k + 1..], cls))
  }

  /** `[^<>()[\]\\.,;:\s@"]+(\.[^<>()[\]\\.,;:\s@"]+)*` */
  predicate UnquotedLocal(l: string) {
    DottedRuns(l, AtomChar)
  }

  /** `.(".+")`: one arbitrary character, then a quoted non-empty string. The pattern has
      no `u` flag, so the leading `.` takes one UTF-16 code unit: a first character
      outside the Basic Multilingual Plane leaves its second surrogate where the quote
      should be. Inside the quotes `.+` takes both halves of a pair alike. */
  predicate QuotedLocal(l: string) {
    && |l| >= 4
    && !IsLineTerminator(l[0]) && CodeUnits(l[0]) == 1
    && l[1] == '"' && l[|l| - 1] == '"'
    && forall k :: 2 <= k < |l| - 1 ==> !IsLineTerminator(l[k])
  }

  /** `[0-9]{1,3}` */
  predicate Octet(t: string) {
    1 <= |t| <= 3 && forall k :: 0 <= k < |t| ==> IsDigit(t[k])
  }

  /** `n` octets separated by dots. */
  predicate DottedOctets(t: string, n: nat)
    decreases n
  {
    if n <= 1 then n == 1 && Octet(t)
    else exists k :: 0 < k < |t| && Octet(t[..k]) && t[k] == '.' && DottedOctets(t[k + 1..], n - 1)
  }

  /** `\[[0-9]{1,3}\.[0-9]{1,3}\.[0-9]{1,3}\.[0-9]{1,3}\]` */
  predicate BracketedQuad(d: string) {
    |d| >= 2 && d[0] == '[' && d[|d| - 1] == ']' && DottedOctets(d[1..|d| - 1], 4)
  }

  /** `[a-zA-Z]{2,}` */
  predicate TopLevel(t: string) {
    |t| >= 2 && forall k :: 0 <= k < |t| ==> Letter(t[k])
  }

  /** `([a-zA-Z\-0-9]+\.)+[a-zA-Z]{2,}` */
  predicate HostName(d: string) {
    exists j :: 0 < j < |d| && RunsDotted(d[..j], LabelChar) && TopLevel(d[j..])
  }

  /** The whole pattern, anchored at both ends. */
  predicate Matches(s: string) {
    exists i :: 0 <= i < |s| && s[i] == '@' && (UnquotedLocal(s[..i]) || QuotedLocal(s[..i]))
      && (BracketedQuad(s[i + 1..]) || HostName(s[i + 1..]))
  }

  // ---------------------------------------------------------------------------
  // What the repetitions mean, stated without split points.

  /** Non-empty, made of `cls` characters and dots, with a dot neither first nor last
      nor next to another dot: non-empty runs separated by single dots. */
  predicate DotSeparated(t: string, cls: char -> bool) {
    && |t| > 0 && t[0] != '.' && t[|t| - 1] != '.'
    && (forall k :: 0 <= k < |t| ==> cls(t[k]) || t[k] == '.')
    && (forall k :: 0 < k < |t| && t[k] == '.' ==> t[k - 1] != '.')
  }

  /** The index of the first dot in `u`, or `|u|` when there is none. */
  function FirstDot(u: string): (j: nat)
    ensures j <= |u| && (j < |u| ==> u[j] == '.')
    ensures forall i :: 0 <= i < j ==> u[i] != '.'
  {
    if u == [] || u[0] == '.' then 0 else 1 + FirstDot(u[1..])
  }

  /** The index of the last dot in `u`, or -1 when there is none. */
  function LastDot(u: string): (j: int)
    ensures -1 <= j < |u| && (j >= 0 ==> u[j] == '.')
    ensures forall i :: j < i < |u| ==> u[i] != '.'
  {
    if u == [] then -1 else if u[|u| - 1] == '.' then |u| - 1 else LastDot(u[..|u| - 1])
  }

  /** Runs joined by one dot are dot-separated runs. */
  lemma JoinAtDot(a: string, b: string, cls: char -> bool)
    requires !cls('.') && Run(a, cls) && DotSeparated(b, cls)
    ensures DotSeparated(a + ['.'] + b, cls)
  {
    var t := a + ['.'] + b;
    assert forall i :: 0 <= i < |a| ==> t[i] == a[i];
    assert forall i :: |a| < i < |t| ==> t[i] == b[i - |a| - 1];
  }

  /** Dot-separated runs are a run, then either nothing or one dot and dot-separated runs. */
  lemma SplitAtFirstDot(t: string, cls: char -> bool)
    requires !cls('.') && DotSeparated(t, cls)
    ensures 0 < FirstDot(t) && Run(t[..FirstDot(t)], cls)
    ensures FirstDot(t) < |t| ==> DotSeparated(t[FirstDot(t) + 1..], cls)
  {
    var j := FirstDot(t);
    RunBeforeDot(t, j, cls);
    if j < |t| {
      DotSeparatedAfterDot(t, j, cls);
    }
  }

  lemma RunBeforeDot(t: string, j: nat, cls: char -> bool)
    requires DotSeparated(t, cls) && j <= |t| && (j < |t| ==> t[j] == '.')
    requires forall i :: 0 <= i < j ==> t[i] != '.'
    ensures 0 < j && Run(t[..j], cls)
  {
    var a := t[..j];
    forall i | 0 <= i < |a|
      ensures cls(a[i])
    {
      assert a[i] == t[i];
    }
  }

  lemma DotSeparatedAfterDot(t: string, j: nat, cls: char -> bool)
    requires DotSeparated(t, cls) && j < |t| && t[j] == '.'
    ensures DotSeparated(t[j + 1..], cls)
  {
    var w := t[j + 1..];
    assert w[0] == t[j + 1];
    assert w[|w| - 1] == t[|t| - 1];
    forall i | 0 <= i < |w|
      ensures cls(w[i]) || w[i] == '.'
    {
      assert w[i] == t[j + 1 + i];
    }
    forall i | 0 < i < |w| && w[i] == '.'
      ensures w[i - 1] != '.'
    {
      assert w[i] == t[j + 1 + i] && w[i - 1] == t[j + i];
    }
  }

  /** `(\.X+)*` matches exactly the empty string and a dot followed by dot-separated runs. */
  lemma DotRunsShape(t: string, cls: char -> bool)
    requires !cls('.')
    ensures DotRuns(t, cls) <==> t == [] || (t[0] == '.' && DotSeparated(t[1..], cls))
  {
    if t != [] && DotRuns(t, cls) {
      DotRunsIsDotSeparated(t, cls);
    }
    if t != [] && t[0] == '.' && DotSeparated(t[1..], cls) {
      DotSeparatedIsDotRuns(t, cls);
    }
  }

  lemma {:induction false} DotRunsIsDotSeparated(t: string, cls: char -> bool)
    requires !cls('.') && t != [] && DotRuns(t, cls)
    ensures t[0] == '.' && DotSeparated(t[1..], cls)
    decreases |t|
  {
    var k :| 1 < k <= |t| && Run(t[1..k], cls) && DotRuns(t[k..], cls);
    if k < |t| {
      DotRunsIsDotSeparated(t[k..], cls);
      assert t[1..] == t[1..k] + ['.'] + t[k..][1..];
      JoinAtDot(t[1..k], t[k..][1..], cls);
    } else {
      assert t[1..] == t[1..k];
    }
  }

  lemma {:induction false} DotSeparatedIsDotRuns(t: string, cls: char -> bool)
    requires !cls('.') && t != [] && t[0] == '.' && DotSeparated(t[1..], cls)
    ensures DotRuns(t, cls)
    decreases |t|
  {
    var u := t[1..];
    SplitAtFirstDot(u, cls);
    var k := FirstDot(u) + 1;
    assert t[1..k] == u[..k - 1];
    if k < |t| {
      assert t[k..][1..] == u[k..];
      DotSeparatedIsDotRuns(t[k..], cls);
    } else {
      assert t[k..] == [];
    }
  }

  /** `X+(\.X+)*` matches exactly the dot-separated runs. */
  lemma DottedRunsShape(t: string, cls: char -> bool)
    requires !cls('.')
    ensures DottedRuns(t, cls) <==> DotSeparated(t, cls)
  {
    if DottedRuns(t, cls) {
      var k :| 0 < k <= |t| && Run(t[..k], cls) && DotRuns(t[k..], cls);
      if k < |t| {
        DotRunsIsDotSeparated(t[k..], cls);
      }
      RunThenDotSeparated(t, k, cls);
    }
    if DotSeparated(t, cls) {
      SplitAtFirstDot(t, cls);
      var j := FirstDot(t);
      if j < |t| {
        assert t[j..][1..] == t[j + 1..];
        DotSeparatedIsDotRuns(t[j..], cls);
      } else {
        assert t[j..] == [];
      }
    }
  }

  /** A run, then nothing or a dot and dot-separated runs: dot-separated runs. */
  lemma RunThenDotSeparated(t: string, k: nat, cls: char -> bool)
    requires !cls('.') && 0 < k <= |t| && Run(t[..k], cls)
    requires k < |t| ==> t[k..][0] == '.' && DotSeparated(t[k..][1..], cls)
    ensures DotSeparated(t, cls)
  {
    if k < |t| {
      var a, b := t[..k], t[k..][1..];
      JoinAtDot(a, b, cls);
      assert t == a + ['.'] + b;
    } else {
      assert t == t[..k];
    }
  }

  /** Every string `(X+\.)+` matches is dot-separated runs followed by one dot. */
  lemma {:induction false} RunsDottedIsDotSeparated(t: string, cls: char -> bool)
    requires !cls('.')
    requires RunsDotted(t, cls)
    ensures |t| > 1 && t[|t| - 1] == '.' && DotSeparated(t[..|t| - 1], cls)
    decreases |t|
  {
    var k :| 0 < k < |t| && Run(t[..k], cls) && t[k] == '.' && (k + 1 == |t| || RunsDotted(t[k + 1..], cls));
    if k + 1 < |t| {
      RunsDottedIsDotSeparated(t[k + 1..], cls);
    }
    RunThenDottedRuns(t, k, cls);
  }

  /** A run, a dot, then nothing or dot-separated runs ending in a dot: dot-separated runs
      ending in a dot. */
  lemma RunThenDottedRuns(t: string, k: nat, cls: char -> bool)
    requires !cls('.') && 0 < k < |t| && Run(t[..k], cls) && t[k] == '.'
    requires k + 1 < |t| ==>
      var w := t[k + 1..]; |w| > 1 && w[|w| - 1] == '.' && DotSeparated(w[..|w| - 1], cls)
    ensures |t| > 1 && t[|t| - 1] == '.' && DotSeparated(t[..|t| - 1], cls)
  {
    if k + 1 == |t| {
      assert t[..|t| - 1] == t[..k];
    } else {
      var a, w := t[..k], t[k + 1..];
      var b := w[..|w| - 1];
      JoinAtDot(a, b, cls);
      assert t[..|t| - 1] == a + ['.'] + b;
    }
  }

  /** Every string of dot-separated runs followed by one dot is matched by `(X+\.)+`. */
  lemma {:induction false} DotSeparatedIsRunsDotted(t: string, cls: char -> bool)
    requires !cls('.')
    requires |t| > 1 && t[|t| - 1] == '.' && DotSeparated(t[..|t| - 1], cls)
    ensures RunsDotted(t, cls)
    decreases |t|
  {
    var v := t[..|t| - 1];
    SplitAtFirstDot(v, cls);
    var k := FirstDot(v);
    assert t[..k] == v[..k];
    if k + 1 < |t| {
      var w := t[k + 1..];
      assert w[..|w| - 1] == v[k + 1..];
      DotSeparatedIsRunsDotted(w, cls);
    }
  }

  /** Labels then a top-level domain, stated without split points: the part after the
      last dot is at least two letters, and the part before it is dot-separated labels. */
  predicate LabelsThenTopLevel(d: string) {
    var j := LastDot(d) + 1;
    2 <= j && DotSeparated(d[..j - 1], LabelChar) && TopLevel(d[j..])
  }

  /** A dot with no dot after it is the last dot. */
  lemma LastDotAt(d: string, j: nat)
    requires j < |d| && d[j] == '.'
    requires forall i :: j < i < |d| ==> d[i] != '.'
    ensures LastDot(d) == j
  {
  }

  /** `([a-zA-Z\-0-9]+\.)+[a-zA-Z]{2,}` matches exactly the labels-then-top-level shape. */
  lemma HostNameShape(d: string)
    ensures HostName(d) <==> LabelsThenTopLevel(d)
  {
    if HostName(d) {
      HostNameIsLabelsThenTopLevel(d);
    }
    if LabelsThenTopLevel(d) {
      LabelsThenTopLevelIsHostName(d);
    }
  }

  lemma HostNameIsLabelsThenTopLevel(d: string)
    requires HostName(d)
    ensures LabelsThenTopLevel(d)
  {
    var j :| 0 < j < |d| && RunsDotted(d[..j], LabelChar) && TopLevel(d[j..]);
    RunsDottedIsDotSeparated(d[..j], LabelChar);
    LabelsDotTopLevel(d, j);
  }

  /** Labels ending in a dot at `j - 1`, then a top-level domain from `j` on. */
  lemma LabelsDotTopLevel(d: string, j: nat)
    requires 1 < j < |d| && TopLevel(d[j..])
    requires d[..j][j - 1] == '.' && DotSeparated(d[..j][..j - 1], LabelChar)
    ensures LabelsThenTopLevel(d)
  {
    assert forall i :: j <= i < |d| ==> d[i] == d[j..][i - j];
    LastDotAt(d, j - 1);
    assert d[..j][..j - 1] == d[..j - 1];
  }

  lemma LabelsThenTopLevelIsHostName(d: string)
    requires LabelsThenTopLevel(d)
    ensures HostName(d)
  {
    var j := LastDot(d) + 1;
    assert d[..j][..j - 1] == d[..j - 1];
    DotSeparatedIsRunsDotted(d[..j], LabelChar);
  }
}
