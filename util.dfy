/** The validators and constants of utils/util.js. */
module Util {
  import opened Js
  import opened Wrappers
  import opened EmailPattern

  /** `UserType` (utils/util.js:36-39), also the `type` enum of the user schema. */
  datatype UserType = Admin | User {
    /** The string the enum stands for. */
    function Name(): string {
      match this
      case Admin => "admin"
      case User => "user"
    }
  }

  /** Reads a stored `type` string back; exactly "admin" and "user" are user types. */
  function ParseUserType(s: string): (t: Option<UserType>)
    ensures forall u: UserType :: t == Some(u) <==> u.Name() == s
    ensures t.None? <==> s != "admin" && s != "user"
  {
    if s == "admin" then Some(Admin) else if s == "user" then Some(User) else None
  }

  // ---------------------------------------------------------------------------
  // validatePassword: /^(?=.*\d)(?=.*[!@#$%^&*])(?=.*[a-z])(?=.*[A-Z]).{8,}$/

  predicate IsSpecial(c: char) {
    c in "!@#$%^&*"
  }

  /** `(?=.*C)` at the start of the input: a character of class `C` occurs with no line
      terminator before it (`.` does not match a line terminator). */
  predicate LookaheadFromStart(p: string, cls: char -> bool) {
    exists k :: 0 <= k < |p| && cls(p[k]) && forall j :: 0 <= j < k ==> !IsLineTerminator(p[j])
  }

  /** `.{8,}$` from the start of the input. Without the `u` flag `.` matches one UTF-16
      code unit, so the length counted is the string's code-unit length. */
  predicate EightOrMoreToEnd(p: string) {
    Utf16Length(p) >= 8 && forall j :: 0 <= j < |p| ==> !IsLineTerminator(p[j])
  }

  predicate Contains(p: string, cls: char -> bool) {
    exists k :: 0 <= k < |p| && cls(p[k])
  }

  /** `validatePassword(password)`: `RegExp.prototype.test` coerces its argument with
      `String`, then every lookahead and the length rule must hold. Accepted exactly when
      the text has at least 8 UTF-16 code units, no line terminator, and a digit, one of
      `!@#$%^&*`, a lower-case and an upper-case ASCII letter. */
  function ValidatePassword(password: Value): (ok: bool)
    ensures var p := ToString(password);
      ok <==> && Utf16Length(p) >= 8
              && (forall j :: 0 <= j < |p| ==> !IsLineTerminator(p[j]))
              && Contains(p, IsDigit) && Contains(p, IsSpecial)
              && Contains(p, IsAsciiLower) && Contains(p, IsAsciiUpper)
  {
    var p := ToString(password);
    && LookaheadFromStart(p, IsDigit)
    && LookaheadFromStart(p, IsSpecial)
    && LookaheadFromStart(p, IsAsciiLower)
    && LookaheadFromStart(p, IsAsciiUpper)
    && EightOrMoreToEnd(p)
  }

  /** A password with a line terminator anywhere is never accepted. */
  lemma PasswordWithLineTerminatorRejected(p: string, k: nat)
    requires k < |p| && IsLineTerminator(p[k])
    ensures !ValidatePassword(Str(p))
  {
  }

  /** The password of the test fixtures is accepted (tests/controllers/book.controller.test.js:26). */
  lemma FixturePasswordAccepted()
    ensures ValidatePassword(Str("Budd@i1028"))
  {
    var p := "Budd@i1028";
    assert ToString(Str(p)) == p;
    assert |p| == 10;
    assert forall j :: 0 <= j < |p| ==> !IsLineTerminator(p[j]);
    assert IsAsciiUpper(p[0]) && IsAsciiLower(p[1]) && IsSpecial(p[4]) && IsDigit(p[6]);
  }

  /** The length rule counts UTF-16 code units: two emoji outside the Basic Multilingual
      Plane make six characters but eight code units, enough for `.{8,}`. */
  lemma AstralPasswordAccepted()
    ensures ValidatePassword(Str("Aa1!\U{1F600}\U{1F600}"))
  {
    var p := "Aa1!\U{1F600}\U{1F600}";
    assert ToString(Str(p)) == p;
    assert |p| == 6;
    assert Utf16Length(p[..4]) == 4 by {
      assert forall k :: 0 <= k < 4 ==> CodeUnits(p[..4][k]) == 1;
      Utf16LengthOfBmp(p[..4]);
    }
    assert p[..5][..4] == p[..4];
    assert Utf16Length(p[..5]) == 6;
    assert p[..6][..5] == p[..5];
    assert Utf16Length(p) == 8;
    assert forall j :: 0 <= j < |p| ==> !IsLineTerminator(p[j]);
    assert IsAsciiUpper(p[0]) && IsAsciiLower(p[1]) && IsDigit(p[2]) && IsSpecial(p[3]);
  }

  // ---------------------------------------------------------------------------
  // validateEmail

  /** `validateEmail(email)`: the value is coerced with `String`, lower-cased, and matched
      against the whole pattern. */
  function ValidateEmail(email: Value): (ok: bool)
    ensures ok ==> '@' in Lower(ToString(email))
  {
    Matches(Lower(ToString(email)))
  }

  /** The verdict is the same for an address and its lower-cased spelling. */
  lemma EmailIgnoresCase(s: string)
    ensures ValidateEmail(Str(Lower(s))) == ValidateEmail(Str(s))
  {
    LowerIdempotent(s);
  }

  /** What an accepted address looks like, stated without the pattern's split points:
      after lower-casing there is an `@` such that the part before it is either non-empty
      runs of allowed characters separated by single dots, or one single-code-unit character followed by a
      quoted string; and the part after it is either a bracketed dotted quad of 1-3 digit
      groups, or dot-separated labels of `[a-z0-9-]` followed by a dot and a top-level
      domain of at least two letters. */
  predicate EmailShape(e: string) {
    exists i :: 0 <= i < |e| && e[i] == '@'
      && (DotSeparated(e[..i], AtomChar) || QuotedLocal(e[..i]))
      && (BracketedQuad(e[i + 1..]) || LabelsThenTopLevel(e[i + 1..]))
  }

  lemma MatchesHasShape(e: string)
    requires Matches(e)
    ensures EmailShape(e)
  {
    var i :| 0 <= i < |e| && e[i] == '@' && (UnquotedLocal(e[..i]) || QuotedLocal(e[..i]))
      && (BracketedQuad(e[i + 1..]) || HostName(e[i + 1..]));
    DottedRunsShape(e[..i], AtomChar);
    HostNameShape(e[i + 1..]);
    assert (DotSeparated(e[..i], AtomChar) || QuotedLocal(e[..i]))
      && (BracketedQuad(e[i + 1..]) || LabelsThenTopLevel(e[i + 1..]));
  }

  lemma ShapeMatches(e: string)
    requires EmailShape(e)
    ensures Matches(e)
  {
    var i :| 0 <= i < |e| && e[i] == '@'
      && (DotSeparated(e[..i], AtomChar) || QuotedLocal(e[..i]))
      && (BracketedQuad(e[i + 1..]) || LabelsThenTopLevel(e[i + 1..]));
    DottedRunsShape(e[..i], AtomChar);
    HostNameShape(e[i + 1..]);
    assert (UnquotedLocal(e[..i]) || QuotedLocal(e[..i]))
      && (BracketedQuad(e[i + 1..]) || HostName(e[i + 1..]));
  }

  lemma ValidateEmailMeaning(email: Value)
    ensures ValidateEmail(email) <==> EmailShape(Lower(ToString(email)))
  {
    var e := Lower(ToString(email));
    if Matches(e) { MatchesHasShape(e); }
    if EmailShape(e) { ShapeMatches(e); }
  }

  lemma LowerKeepsLowerCase(s: string)
    requires NoUpper(s)
    ensures Lower(s) == s
  {
  }

  /** An address already in lower case that has the shape is accepted. */
  lemma ShapedLowerCaseAccepted(e: string)
    requires EmailShape(e) && Lower(e) == e
    ensures ValidateEmail(Str(e))
  {
    ShapeMatches(e);
  }

  predicate NoUpper(s: string) {
    forall k :: 0 <= k < |s| ==> !IsAsciiUpper(s[k])
  }

  /** `host.tld` with one host of `[a-z0-9-]` and a top-level domain of two or more
      lower-case letters has the domain shape. */
  lemma OneLabelDomain(host: string, tld: string)
    requires Run(host, LabelChar)
    requires |tld| >= 2 && forall k :: 0 <= k < |tld| ==> IsAsciiLower(tld[k])
    ensures LabelsThenTopLevel(host + "." + tld)
  {
    var d := host + "." + tld;
    assert d[|host|] == '.';
    assert forall i :: |host| < i < |d| ==> d[i] == tld[i - |host| - 1] && d[i] != '.';
    assert LastDot(d) == |host|;
    assert d[..|host|] == host && d[|host| + 1..] == tld;
    assert forall k :: 0 <= k < |host| ==> host[k] != '.';
  }

  /** A lower-case address `local@host.tld`, with a local part of allowed characters and
      no dot, is accepted; the fixture address "uday510@icloud.com"
      (tests/controllers/book.controller.test.js:22) is one. */
  lemma PlainAddressAccepted(local: string, host: string, tld: string)
    requires Run(local, AtomChar) && NoUpper(local)
    requires Run(host, LabelChar) && NoUpper(host)
    requires |tld| >= 2 && forall k :: 0 <= k < |tld| ==> IsAsciiLower(tld[k])
    ensures ValidateEmail(Str(local + "@" + host + "." + tld))
  {
    var e := local + "@" + host + "." + tld;
    PlainAddressShape(local, host, tld);
    NoUpperConcat(local, "@");
    NoUpperConcat(local + "@", host);
    NoUpperConcat(local + "@" + host, ".");
    NoUpperConcat(local + "@" + host + ".", tld);
    LowerKeepsLowerCase(e);
    ShapedLowerCaseAccepted(e);
  }

  lemma PlainAddressShape(local: string, host: string, tld: string)
    requires Run(local, AtomChar) && Run(host, LabelChar)
    requires |tld| >= 2 && forall k :: 0 <= k < |tld| ==> IsAsciiLower(tld[k])
    ensures EmailShape(local + "@" + host + "." + tld)
  {
    var d := host + "." + tld;
    OneLabelDomain(host, tld);
    assert !AtomChar('.');
    assert DotSeparated(local, AtomChar);
    ShapeOfParts(local, d);
    Regroup(local, host, tld);
  }

  lemma Regroup(local: string, host: string, tld: string)
    ensures local + "@" + (host + "." + tld) == local + "@" + host + "." + tld
  {
  }

  /** The quoted alternative of the pattern is `.(".+")`, which wants one character before
      the opening quote: an address that starts with a quote followed by anything but a
      second quote is refused, whatever comes after it. */
  lemma BareQuotedLocalRefused(s: string)
    requires |s| >= 2 && s[0] == '"' && s[1] != '"'
    ensures !ValidateEmail(Str(s))
  {
    var e := Lower(s);
    assert e[0] == '"' && e[1] != '"';
    if Matches(e) {
      MatchesHasShape(e);
      assert false;
    }
  }

  /** A first character outside the Basic Multilingual Plane does not stand in for the
      pattern's leading `.` either: it is two code units, and the second is not a quote. */
  lemma AstralLeadingCharRefused(s: string)
    requires |s| >= 2 && CodeUnits(s[0]) == 2 && s[1] == '"'
    ensures !ValidateEmail(Str(s))
  {
    var e := Lower(s);
    assert e[0] == s[0] && e[1] == '"';
    AstralLeadingCharNoShape(e);
    if Matches(e) {
      MatchesHasShape(e);
    }
  }

  lemma AstralLeadingCharNoShape(e: string)
    requires |e| >= 2 && CodeUnits(e[0]) == 2 && e[1] == '"'
    ensures !EmailShape(e)
  {
    forall i | 0 <= i < |e| && e[i] == '@'
      ensures !DotSeparated(e[..i], AtomChar) && !QuotedLocal(e[..i])
    {
      assert i != 0 && i != 1;
      AstralLeadingCharNoLocal(e[..i]);
    }
  }

  lemma AstralLeadingCharNoLocal(l: string)
    requires |l| >= 2 && CodeUnits(l[0]) == 2 && l[1] == '"'
    ensures !DotSeparated(l, AtomChar) && !QuotedLocal(l)
  {
    assert !AtomChar(l[1]);
  }

  /** ... while the same quoted string behind any one single-code-unit character is
      accepted. */
  lemma LeadingCharQuotedLocalAccepted(c: char, q: string, host: string, tld: string)
    requires !IsLineTerminator(c) && !IsAsciiUpper(c) && CodeUnits(c) == 1
    requires |q| > 0 && NoUpper(q) && forall k :: 0 <= k < |q| ==> !IsLineTerminator(q[k])
    requires Run(host, LabelChar) && NoUpper(host)
    requires |tld| >= 2 && forall k :: 0 <= k < |tld| ==> IsAsciiLower(tld[k])
    ensures ValidateEmail(Str([c] + "\"" + q + "\"" + "@" + host + "." + tld))
  {
    var e := [c] + "\"" + q + "\"" + "@" + host + "." + tld;
    QuotedAddressShape(c, q, host, tld);
    NoUpperConcat([c], "\"");
    NoUpperConcat([c] + "\"", q);
    NoUpperConcat([c] + "\"" + q, "\"");
    NoUpperConcat([c] + "\"" + q + "\"", "@");
    NoUpperConcat([c] + "\"" + q + "\"" + "@", host);
    NoUpperConcat([c] + "\"" + q + "\"" + "@" + host, ".");
    NoUpperConcat([c] + "\"" + q + "\"" + "@" + host + ".", tld);
    LowerKeepsLowerCase(e);
    ShapedLowerCaseAccepted(e);
  }

  lemma QuotedAddressShape(c: char, q: string, host: string, tld: string)
    requires !IsLineTerminator(c) && CodeUnits(c) == 1
    requires |q| > 0 && forall k :: 0 <= k < |q| ==> !IsLineTerminator(q[k])
    requires Run(host, LabelChar)
    requires |tld| >= 2 && forall k :: 0 <= k < |tld| ==> IsAsciiLower(tld[k])
    ensures EmailShape([c] + "\"" + q + "\"" + "@" + host + "." + tld)
  {
    var l := [c] + "\"" + q + "\"";
    var d := host + "." + tld;
    OneLabelDomain(host, tld);
    assert QuotedLocal(l) by {
      assert forall k :: 2 <= k < |l| - 1 ==> l[k] == q[k - 2];
    }
    var e := l + "@" + d;
    assert e[..|l|] == l && e[|l|] == '@' && e[|l| + 1..] == d;
    assert e == [c] + "\"" + q + "\"" + "@" + host + "." + tld;
  }

  lemma ShapeOfParts(local: string, d: string)
    requires DotSeparated(local, AtomChar) && LabelsThenTopLevel(d)
    ensures EmailShape(local + "@" + d)
  {
    var e := local + "@" + d;
    assert e[..|local|] == local && e[|local|] == '@' && e[|local| + 1..] == d;
  }

  lemma NoUpperConcat(a: string, b: string)
    requires NoUpper(a) && NoUpper(b)
    ensures NoUpper(a + b)
  {
    assert forall k :: |a| <= k < |a + b| ==> (a + b)[k] == b[k - |a|];
  }
}
