/** The Jira-key extractors of the sync engine. Each regular expression is
    written out as an explicit scanner and proved against a declarative
    statement of what the expression matches, with JavaScript's ASCII word
    boundaries: word characters are `[A-Za-z0-9_]`, `\d` is `[0-9]`. */
module JiraKeys {
  import opened Wrappers
  import opened Strings

  predicate IsUpper(c: char) { 'A' <= c <= 'Z' }
  predicate IsDigit(c: char) { '0' <= c <= '9' }
  predicate IsUpperOrDigit(c: char) { IsUpper(c) || IsDigit(c) }
  predicate IsWordChar(c: char) { IsUpperOrDigit(c) || ('a' <= c <= 'z') || c == '_' }

  /** `k` matches `[A-Z][A-Z0-9]{1,15}-\d{1,10}` as a whole; `p` is the position
      of the dash. */
  ghost predicate KeyShapeWith(k: string, p: nat) {
    && 2 <= p <= 16 && p < |k|
    && IsUpper(k[0])
    && (forall j :: 1 <= j < p ==> IsUpperOrDigit(k[j]))
    && k[p] == '-'
    && 1 <= |k| - p - 1 <= 10
    && (forall j :: p < j < |k| ==> IsDigit(k[j]))
  }

  ghost predicate KeyShape(k: string) {
    exists p: nat :: KeyShapeWith(k, p)
  }

  /** A key of length `n` starts at `j` and is followed by a word boundary
      (the key ends in a digit, so the next character must not be a word
      character). */
  ghost predicate KeyAt(s: string, j: nat, n: nat) {
    j + n <= |s| && KeyShape(s[j..j + n]) && (j + n == |s| || !IsWordChar(s[j + n]))
  }

  /** A word boundary before position `i`, whose character is a word
      character. */
  predicate StartBoundary(s: string, i: nat)
    requires i <= |s|
  {
    i == 0 || !IsWordChar(s[i - 1])
  }

  // ---------------------------------------------------------------------
  // The scanner

  /** The length of the run of `[A-Z0-9]` characters starting at `j`. */
  function UpperDigitRun(s: string, j: nat): (a: nat)
    requires j <= |s|
    ensures j + a <= |s|
    ensures forall k :: j <= k < j + a ==> IsUpperOrDigit(s[k])
    ensures j + a == |s| || !IsUpperOrDigit(s[j + a])
    decreases |s| - j
  {
    if j < |s| && IsUpperOrDigit(s[j]) then 1 + UpperDigitRun(s, j + 1) else 0
  }

  /** The length of the run of digits starting at `j`. */
  function DigitRun(s: string, j: nat): (d: nat)
    requires j <= |s|
    ensures j + d <= |s|
    ensures forall k :: j <= k < j + d ==> IsDigit(s[k])
    ensures j + d == |s| || !IsDigit(s[j + d])
    decreases |s| - j
  {
    if j < |s| && IsDigit(s[j]) then 1 + DigitRun(s, j + 1) else 0
  }

  /** The length of the key the expression matches at `j`, if any. Backtracking
      cannot help: the `[A-Z0-9]` run must end at the dash, and the digit run
      must end where the word boundary is, so there is at most one length. */
  function KeyLenAt(s: string, j: nat): (r: Option<nat>)
    requires j <= |s|
    ensures forall n: nat :: KeyAt(s, j, n) <==> r == Some(n)
  {
    if j < |s| && IsUpper(s[j]) then
      var a := UpperDigitRun(s, j + 1);
      if 1 <= a <= 15 && j + 1 + a < |s| && s[j + 1 + a] == '-' then
        var d := DigitRun(s, j + 2 + a);
        if 1 <= d <= 10 && (j + 2 + a + d == |s| || !IsWordChar(s[j + 2 + a + d])) then
          KeyLenAtSome(s, j, a, d);
          Some(2 + a + d)
        else
          KeyLenAtNone(s, j);
          None
      else
        KeyLenAtNone(s, j);
        None
    else
      KeyLenAtNone(s, j);
      None
  }

  lemma KeyLenAtSome(s: string, j: nat, a: nat, d: nat)
    requires j < |s| && IsUpper(s[j])
    requires j + 1 <= |s| && a == UpperDigitRun(s, j + 1)
    requires 1 <= a <= 15 && j + 1 + a < |s| && s[j + 1 + a] == '-'
    requires d == DigitRun(s, j + 2 + a)
    requires 1 <= d <= 10 && (j + 2 + a + d == |s| || !IsWordChar(s[j + 2 + a + d]))
    ensures forall n: nat :: KeyAt(s, j, n) <==> n == 2 + a + d
  {
    var k := s[j..j + 2 + a + d];
    assert KeyShapeWith(k, 1 + a);
    forall n: nat | KeyAt(s, j, n) ensures n == 2 + a + d {
      KeyPinned(s, j, n);
    }
  }

  lemma KeyLenAtNone(s: string, j: nat)
    requires j <= |s|
    requires !(j < |s| && IsUpper(s[j]) && j + 1 <= |s|
      && var a := UpperDigitRun(s, j + 1);
      && 1 <= a <= 15 && j + 1 + a < |s| && s[j + 1 + a] == '-'
      && var d := DigitRun(s, j + 2 + a);
      && 1 <= d <= 10 && (j + 2 + a + d == |s| || !IsWordChar(s[j + 2 + a + d])))
    ensures forall n: nat :: !KeyAt(s, j, n)
  {
    forall n: nat | KeyAt(s, j, n) ensures false {
      KeyPinned(s, j, n);
    }
  }

  /** A key at `j` is pinned down by the two runs the scanner measures. */
  lemma KeyPinned(s: string, j: nat, n: nat)
    requires KeyAt(s, j, n)
    ensures j < |s| && IsUpper(s[j])
    ensures var a := UpperDigitRun(s, j + 1);
      && 1 <= a <= 15 && j + 1 + a < |s| && s[j + 1 + a] == '-'
      && var d := DigitRun(s, j + 2 + a);
      && n == 2 + a + d
      && 1 <= d <= 10 && (j + 2 + a + d == |s| || !IsWordChar(s[j + 2 + a + d]))
  {
    var p: nat :| KeyShapeWith(s[j..j + n], p);
    DashPinned(s, j, n, p);
    DigitsPinned(s, j, n, p);
  }

  /** The upper-case letter and the `[A-Z0-9]` run of a key with its dash at
      `p` are exactly what the scanner measures. */
  lemma DashPinned(s: string, j: nat, n: nat, p: nat)
    requires j + n <= |s| && KeyShapeWith(s[j..j + n], p)
    ensures IsUpper(s[j]) && UpperDigitRun(s, j + 1) == p - 1 && s[j + p] == '-'
  {
    var k := s[j..j + n];
    assert k[0] == s[j];
    forall i | j + 1 <= i < j + p ensures IsUpperOrDigit(s[i]) {
      assert s[i] == k[i - j];
    }
    assert s[j + p] == k[p];
    RunIsExactly(s, j + 1, p - 1, UpperDigitRun(s, j + 1));
  }

  /** The digit run after the dash at `p` of a key at `j` is the rest of the
      key, when a word boundary follows. */
  lemma DigitsPinned(s: string, j: nat, n: nat, p: nat)
    requires j + n <= |s| && KeyShapeWith(s[j..j + n], p)
    requires j + n == |s| || !IsWordChar(s[j + n])
    ensures DigitRun(s, j + p + 1) == n - p - 1
  {
    var k := s[j..j + n];
    forall i | j + p + 1 <= i < j + n ensures IsDigit(s[i]) {
      assert s[i] == k[i - j];
    }
    DigitRunIsExactly(s, j + p + 1, n - p - 1, DigitRun(s, j + p + 1));
  }

  lemma RunIsExactly(s: string, j: nat, m: nat, a: nat)
    requires j + m < |s| && a == UpperDigitRun(s, j)
    requires forall i :: j <= i < j + m ==> IsUpperOrDigit(s[i])
    requires !IsUpperOrDigit(s[j + m])
    ensures a == m
  {
  }

  lemma DigitRunIsExactly(s: string, j: nat, m: nat, d: nat)
    requires j + m <= |s| && d == DigitRun(s, j)
    requires forall i :: j <= i < j + m ==> IsDigit(s[i])
    requires j + m == |s| || !IsWordChar(s[j + m])
    ensures d == m
  {
  }

  // ---------------------------------------------------------------------
  // The three expressions

  /** `\b(KEY)\b`, `\/browse\/(KEY)\b` and
      `[?&](?:selectedIssue|issueKey)=(KEY)\b`. */
  datatype Pattern = Bare | Browse | Query

  /** The pattern matches at `i` with its captured key at `[ks, ks + n)`. */
  ghost predicate MatchAt(pat: Pattern, s: string, i: nat, ks: nat, n: nat) {
    match pat
    case Bare => ks == i && i <= |s| && StartBoundary(s, i) && KeyAt(s, i, n)
    case Browse => HasAt(s, i, "/browse/") && ks == i + 8 && KeyAt(s, ks, n)
    case Query =>
      && i < |s| && (s[i] == '?' || s[i] == '&')
      && ((HasAt(s, i + 1, "selectedIssue=") && ks == i + 15) || (HasAt(s, i + 1, "issueKey=") && ks == i + 10))
      && KeyAt(s, ks, n)
  }

  /** Where the captured key would start if the pattern's text before it
      matches at `i` (the two query names begin with different letters, so at
      most one of them applies). */
  function KeyStart(pat: Pattern, s: string, i: nat): (r: Option<nat>)
    requires i <= |s|
    ensures r.Some? ==> r.value <= |s|
    ensures forall ks: nat, n: nat :: MatchAt(pat, s, i, ks, n) ==> r == Some(ks)
  {
    QueryNamesExclusive(s, i);
    match pat
    case Bare => if StartBoundary(s, i) then Some(i) else None
    case Browse => if HasAt(s, i, "/browse/") then Some(i + 8) else None
    case Query =>
      if i < |s| && (s[i] == '?' || s[i] == '&') then
        if HasAt(s, i + 1, "selectedIssue=") then Some(i + 15)
        else if HasAt(s, i + 1, "issueKey=") then Some(i + 10)
        else None
      else None
  }

  /** `selectedIssue=` and `issueKey=` cannot both occur at one position. */
  lemma QueryNamesExclusive(s: string, i: nat)
    ensures !(HasAt(s, i + 1, "selectedIssue=") && HasAt(s, i + 1, "issueKey="))
  {
    assert HasAt(s, i + 1, "selectedIssue=") ==> s[i + 1] == "selectedIssue="[0];
    assert HasAt(s, i + 1, "issueKey=") ==> s[i + 1] == "issueKey="[0];
  }

  /** A match: where the pattern starts, and where its captured key starts and
      how long it is. */
  datatype Found = Found(start: nat, keyStart: nat, len: nat)

  /** The match of the pattern that starts at `i`, if any. */
  function MatchAtPos(pat: Pattern, s: string, i: nat): (r: Option<Found>)
    requires i <= |s|
    ensures r.Some? ==> r.value.start == i && MatchAt(pat, s, i, r.value.keyStart, r.value.len)
    ensures r.None? ==> forall ks: nat, n: nat :: !MatchAt(pat, s, i, ks, n)
  {
    match KeyStart(pat, s, i)
    case None => None
    case Some(ks) =>
      match KeyLenAt(s, ks)
      case None => None
      case Some(n) =>
        QueryNamesExclusive(s, i);
        assert MatchAt(pat, s, i, ks, n);
        Some(Found(i, ks, n))
  }

  /** The leftmost match at or after `i`, the way `String.prototype.match`
      tries successive start positions. */
  function FirstMatchFrom(pat: Pattern, s: string, i: nat): (r: Option<Found>)
    requires i <= |s|
    ensures r.Some? ==> i <= r.value.start && MatchAt(pat, s, r.value.start, r.value.keyStart, r.value.len)
    ensures forall j: nat, ks: nat, n: nat :: i <= j && (r.Some? ==> j < r.value.start) ==> !MatchAt(pat, s, j, ks, n)
    decreases |s| - i
  {
    var here := MatchAtPos(pat, s, i);
    if here.Some? then here
    else if i == |s| then
      assert forall j: nat, ks: nat, n: nat :: i < j ==> !MatchAt(pat, s, j, ks, n) by {
        forall j: nat, ks: nat, n: nat | i < j && MatchAt(pat, s, j, ks, n) ensures false {
          MatchNeedsRoom(pat, s, j, ks, n);
        }
      }
      None
    else FirstMatchFrom(pat, s, i + 1)
  }

  lemma MatchNeedsRoom(pat: Pattern, s: string, i: nat, ks: nat, n: nat)
    requires MatchAt(pat, s, i, ks, n)
    ensures i < |s|
  {
    var k := s[ks..ks + n];
    var p: nat :| KeyShapeWith(k, p);
  }

  /** The key the pattern captures in its leftmost match (`s.match(re)?.[1]`). */
  function Search(pat: Pattern, s: string): (r: Option<string>)
    ensures r.Some? ==> KeyShape(r.value)
    ensures r.Some? <==> exists i: nat, ks: nat, n: nat :: MatchAt(pat, s, i, ks, n)
  {
    match FirstMatchFrom(pat, s, 0)
    case None => None
    case Some(f) => Some(s[f.keyStart..f.keyStart + f.len])
  }

  /** Search returns the key of the leftmost match. */
  lemma SearchLeftmost(pat: Pattern, s: string)
    requires Search(pat, s).Some?
    ensures exists i: nat, ks: nat ::
      (&& MatchAt(pat, s, i, ks, |Search(pat, s).value|)
       && s[ks..ks + |Search(pat, s).value|] == Search(pat, s).value
       && forall j: nat, ks': nat, n: nat :: j < i ==> !MatchAt(pat, s, j, ks', n))
  {
    var f := FirstMatchFrom(pat, s, 0).value;
    assert MatchAt(pat, s, f.start, f.keyStart, |Search(pat, s).value|);
  }

  /** A pattern matches at a position in at most one way. */
  lemma MatchAtUnique(pat: Pattern, s: string, i: nat, ks: nat, n: nat, ks': nat, n': nat)
    requires MatchAt(pat, s, i, ks, n) && MatchAt(pat, s, i, ks', n')
    ensures ks == ks' && n == n'
  {
    MatchNeedsRoom(pat, s, i, ks, n);
    var k := KeyStart(pat, s, i);
    assert ks == ks';
    assert KeyAt(s, ks, n) && KeyAt(s, ks, n');
    var m := KeyLenAt(s, ks);
  }

  /** Conversely, a match with no match before it is the one `Search`
      reports: its captured key. */
  lemma SearchFindsFirstMatch(pat: Pattern, s: string, i: nat, ks: nat, n: nat)
    requires MatchAt(pat, s, i, ks, n)
    requires forall j: nat, ks': nat, n': nat :: j < i ==> !MatchAt(pat, s, j, ks', n')
    ensures ks + n <= |s| && Search(pat, s) == Some(s[ks..ks + n])
  {
    assert KeyAt(s, ks, n);
    var r := FirstMatchFrom(pat, s, 0);
    assert r.Some? && r.value.start == i;
    MatchAtUnique(pat, s, i, ks, n, r.value.keyStart, r.value.len);
  }

  // ---------------------------------------------------------------------
  // The two extractors

  /** `extractJiraIssueKeyFromText`: the leftmost word-bounded Jira key. The
      result is shaped like a key and occurs in the text; there is none exactly
      when no position matches. */
  function ExtractJiraIssueKeyFromText(text: string): (r: Option<string>)
    ensures r.Some? ==> KeyShape(r.value) && Contains(text, r.value)
    ensures r.None? <==> forall i: nat, n: nat :: !MatchAt(Bare, text, i, i, n)
  {
    var r := Search(Bare, text);
    if r.Some? then
      var f := FirstMatchFrom(Bare, text, 0).value;
      assert HasAt(text, f.keyStart, r.value);
      r
    else
      r
  }

  const UrlPatterns: seq<Pattern> := [Browse, Query]

  /** The loop over patterns with early return: the first pattern that
      captures a key decides. */
  function FirstPatternKey(pats: seq<Pattern>, url: string): (r: Option<string>)
    ensures r.Some? ==> exists k ::
      (&& 0 <= k < |pats| && Search(pats[k], url) == r
       && forall j :: 0 <= j < k ==> Search(pats[j], url).None?)
    ensures r.None? ==> forall k :: 0 <= k < |pats| ==> Search(pats[k], url).None?
  {
    if pats == [] then None
    else
      var m := Search(pats[0], url);
      if m.Some? then
        assert Search(pats[0], url) == m;
        m
      else
        var rest := FirstPatternKey(pats[1..], url);
        FirstMatchShift(pats, p => Search(p, url), rest);
        rest
  }

  /** What a first-match loop over `xs[1..]` found, seen from `xs` when the
      first element did not match. */
  lemma FirstMatchShift<X>(xs: seq<X>, f: X -> Option<string>, r: Option<string>)
    requires xs != [] && f(xs[0]).None?
    requires r.Some? ==> exists k :: 0 <= k < |xs[1..]| && f(xs[1..][k]) == r && forall j :: 0 <= j < k ==> f(xs[1..][j]).None?
    requires r.None? ==> forall k :: 0 <= k < |xs[1..]| ==> f(xs[1..][k]).None?
    ensures r.Some? ==> exists k :: 0 <= k < |xs| && f(xs[k]) == r && forall j :: 0 <= j < k ==> f(xs[j]).None?
    ensures r.None? ==> forall k :: 0 <= k < |xs| ==> f(xs[k]).None?
  {
    if r.Some? {
      var k :| 0 <= k < |xs[1..]| && f(xs[1..][k]) == r && forall j :: 0 <= j < k ==> f(xs[1..][j]).None?;
      assert xs[k + 1] == xs[1..][k];
      forall j | 0 <= j < k + 1 ensures f(xs[j]).None? {
        if j > 0 {
          assert xs[j] == xs[1..][j - 1];
        }
      }
    } else {
      forall k | 0 <= k < |xs| ensures f(xs[k]).None? {
        if k > 0 {
          assert xs[k] == xs[1..][k - 1];
        }
      }
    }
  }

  /** `extractJiraIssueKeyFromUrl`: the `/browse/KEY` pattern first, and only
      when it does not match, the `selectedIssue=`/`issueKey=` query pattern. */
  function ExtractJiraIssueKeyFromUrl(url: string): (r: Option<string>)
    ensures Search(Browse, url).Some? ==> r == Search(Browse, url)
    ensures Search(Browse, url).None? ==> r == Search(Query, url)
  {
    assert UrlPatterns[0] == Browse && UrlPatterns[1] == Query;
    FirstPatternKey(UrlPatterns, url)
  }

  /** Text without an upper-case letter carries no key: lower-case look-alikes
      such as `abc-123` never match. */
  lemma {:induction false} NoUpperNoKey(text: string)
    requires forall k :: 0 <= k < |text| ==> !IsUpper(text[k])
    ensures ExtractJiraIssueKeyFromText(text) == None
  {
    forall i: nat, n: nat | MatchAt(Bare, text, i, i, n) ensures false {
      KeyPinned(text, i, n);
    }
  }

  /** The same holds for URLs: neither URL pattern matches without an
      upper-case letter. */
  lemma NoUpperNoUrlKey(url: string)
    requires forall k :: 0 <= k < |url| ==> !IsUpper(url[k])
    ensures ExtractJiraIssueKeyFromUrl(url) == None
  {
    forall pat: Pattern, i: nat, ks: nat, n: nat | MatchAt(pat, url, i, ks, n) ensures false {
      KeyPinned(url, ks, n);
    }
  }
}
