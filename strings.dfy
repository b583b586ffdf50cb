/** The JavaScript string operations the engine depends on, over `seq<char>`:
    `trimEnd`, `indexOf`, `includes`, `split` on one character and `join`. */
module Strings {
  import opened Wrappers

  // Two sequence facts the loops and lemmas lean on, kept out of their
  // larger proof contexts.

  lemma AppendAssoc<T>(x: seq<T>, y: seq<T>, z: seq<T>)
    ensures (x + y) + z == x + (y + z)
  {
  }

  lemma TakeNext<T>(s: seq<T>, i: nat)
    requires i < |s|
    ensures s[..i + 1] == s[..i] + [s[i]]
  {
  }

  /** The characters `String.prototype.trimEnd` removes: ECMAScript
      WhiteSpace (tab, vertical tab, form feed, space, no-break space,
      byte-order mark and the Unicode space separators) and LineTerminator
      (line feed, carriage return, line and paragraph separators). */
  predicate IsJsWhitespace(c: char) {
    c == '\t' || c == '\U{000B}' || c == '\U{000C}' || c == ' ' || c == '\U{00A0}' || c == '\U{FEFF}'
    || c == '\n' || c == '\r' || c == '\U{2028}' || c == '\U{2029}'
    || c == '\U{1680}' || ('\U{2000}' <= c <= '\U{200A}') || c == '\U{202F}' || c == '\U{205F}' || c == '\U{3000}'
  }

  predicate IsPrefix(p: string, s: string) {
    |p| <= |s| && s[..|p|] == p
  }

  /** `s.trimEnd()`: the longest prefix of `s` that does not end in whitespace,
      such that everything removed is whitespace. */
  function TrimEnd(s: string): (r: string)
    ensures IsPrefix(r, s)
    ensures r == [] || !IsJsWhitespace(r[|r| - 1])
    ensures forall k :: |r| <= k < |s| ==> IsJsWhitespace(s[k])
  {
    if s != [] && IsJsWhitespace(s[|s| - 1]) then TrimEnd(s[..|s| - 1]) else s
  }

  /** `needle` occurs in `s` at position `i`. */
  predicate HasAt(s: string, i: nat, needle: string) {
    i + |needle| <= |s| && s[i..i + |needle|] == needle
  }

  /** `s.indexOf(needle)` scanning from `from`: the first position at or after
      `from` where `needle` occurs, or `None` for the source's `-1`. */
  function IndexOfFrom(s: string, needle: string, from: nat): (r: Option<nat>)
    requires from <= |s| + 1
    ensures r.Some? ==> from <= r.value && HasAt(s, r.value, needle)
    ensures forall i :: from <= i && (r.Some? ==> i < r.value) ==> !HasAt(s, i, needle)
    decreases |s| + 1 - from
  {
    if from + |needle| > |s| then None
    else if s[from..from + |needle|] == needle then Some(from)
    else IndexOfFrom(s, needle, from + 1)
  }

  /** `s.indexOf(needle)`: the first occurrence of `needle`, if any. */
  function IndexOf(s: string, needle: string): (r: Option<nat>)
    ensures r.Some? ==> HasAt(s, r.value, needle)
    ensures forall i: nat :: (r.Some? ==> i < r.value) ==> !HasAt(s, i, needle)
  {
    IndexOfFrom(s, needle, 0)
  }

  /** `s.includes(needle)`. */
  function Contains(s: string, needle: string): (r: bool)
    ensures r <==> exists i :: HasAt(s, i, needle)
  {
    IndexOf(s, needle).Some?
  }

  /** An occurrence inside a prefix is an occurrence in the whole string. */
  lemma ContainsPrefix(u: string, v: string, needle: string)
    requires Contains(u, needle)
    ensures Contains(u + v, needle)
  {
    var i := IndexOf(u, needle).value;
    assert (u + v)[i..i + |needle|] == u[i..i + |needle|];
    assert HasAt(u + v, i, needle);
  }

  /** A string starting with `needle` contains it. */
  lemma ContainsAtStart(needle: string, rest: string)
    ensures Contains(needle + rest, needle)
  {
    assert (needle + rest)[0..|needle|] == needle;
    assert HasAt(needle + rest, 0, needle);
  }

  /** Trailing whitespace is all `trimEnd` removes: a prefix that ends in a
      non-whitespace character survives it. */
  lemma TrimEndKeepsPrefix(u: string, v: string)
    requires u != [] && !IsJsWhitespace(u[|u| - 1])
    ensures IsPrefix(u, TrimEnd(u + v))
  {
    var r := TrimEnd(u + v);
    assert (u + v)[|u| - 1] == u[|u| - 1];
    assert |r| >= |u|;
    assert r[..|u|] == (u + v)[..|r|][..|u|] == u;
  }

  /** Trimming is idempotent. */
  lemma TrimEndIdempotent(s: string)
    ensures TrimEnd(TrimEnd(s)) == TrimEnd(s)
  {
  }

  /** The number of occurrences of `c` in `s`. */
  function Count(s: string, c: char): nat {
    if s == [] then 0 else (if s[0] == c then 1 else 0) + Count(s[1..], c)
  }

  /** `s.split(sep)` for a one-character separator: the pieces between the
      separators, so that there is always at least one piece, the pieces hold no
      separator and joining them with the separator gives `s` back. */
  function Split(s: string, sep: char): (r: seq<string>)
    ensures |r| == Count(s, sep) + 1
    ensures forall k :: 0 <= k < |r| ==> sep !in r[k]
  {
    if s == [] then [""]
    else
      var rest := Split(s[1..], sep);
      if s[0] == sep then [""] + rest else [[s[0]] + rest[0]] + rest[1..]
  }

  /** `parts.join(sep)`. */
  function Join(parts: seq<string>, sep: string): string {
    if parts == [] then ""
    else if |parts| == 1 then parts[0]
    else parts[0] + sep + Join(parts[1..], sep)
  }

  /** A join of two or more parts ends with the separator and the last part. */
  lemma {:induction false} JoinLast(parts: seq<string>, sep: string)
    requires |parts| >= 2
    ensures Join(parts, sep) == Join(parts[..|parts| - 1], sep) + sep + parts[|parts| - 1]
  {
    if |parts| > 2 {
      var rest := parts[1..];
      JoinLast(rest, sep);
      assert parts[..|parts| - 1][1..] == rest[..|rest| - 1];
    }
  }

  /** Splitting and re-joining with the same separator is the identity. */
  lemma {:induction false} JoinSplit(s: string, sep: char)
    ensures Join(Split(s, sep), [sep]) == s
  {
    if s != [] {
      var rest := Split(s[1..], sep);
      JoinSplit(s[1..], sep);
      if s[0] == sep {
        assert Split(s, sep) == [""] + rest;
        assert ([""] + rest)[1..] == rest;
      } else {
        var parts := [[s[0]] + rest[0]] + rest[1..];
        assert Split(s, sep) == parts;
        if |rest| == 1 {
          assert Join(rest, [sep]) == rest[0];
        } else {
          assert parts[1..] == rest[1..];
          assert Join(rest, [sep]) == rest[0] + [sep] + Join(rest[1..], [sep]);
        }
        assert s == [s[0]] + s[1..];
      }
    }
  }
}
