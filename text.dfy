/**
  Text operations used by the user search: JavaScript's `String.prototype.trim`,
  a case-insensitive substring test and the order of names.
 */
module Text {

  /**
    The characters `trim` removes: the ECMAScript WhiteSpace characters (tab,
    vertical tab, form feed, space, no-break space, byte order mark and the
    space separators of category Zs) and the LineTerminator characters.
   */
  predicate IsTrimmable(c: char)
  {
    || c == '\t' || c == '\U{000B}' || c == '\U{000C}' || c == ' ' || c == '\U{00A0}' || c == '\U{FEFF}'
    || c == '\U{1680}' || ('\U{2000}' <= c <= '\U{200A}') || c == '\U{202F}' || c == '\U{205F}' || c == '\U{3000}'
    || c == '\n' || c == '\r' || c == '\U{2028}' || c == '\U{2029}'
  }

  /** Every character of `s` is trimmable. */
  predicate IsBlank(s: string)
  {
    forall i :: 0 <= i < |s| ==> IsTrimmable(s[i])
  }

  /** `s` without its leading trimmable characters. */
  function TrimStart(s: string): (r: string)
    ensures |r| <= |s| && r == s[|s| - |r|..]
    ensures r == [] || !IsTrimmable(r[0])
    ensures forall i :: 0 <= i < |s| - |r| ==> IsTrimmable(s[i])
  {
    if s != [] && IsTrimmable(s[0]) then TrimStart(s[1..]) else s
  }

  /** `s` without its trailing trimmable characters. */
  function TrimEnd(s: string): (r: string)
    ensures |r| <= |s| && r == s[..|r|]
    ensures r == [] || !IsTrimmable(r[|r| - 1])
    ensures forall i :: |r| <= i < |s| ==> IsTrimmable(s[i])
  {
    if s != [] && IsTrimmable(s[|s| - 1]) then TrimEnd(s[..|s| - 1]) else s
  }

  /** `s.trim()`. */
  function Trim(s: string): string
  {
    TrimEnd(TrimStart(s))
  }

  /** `trim` removes all of a blank string. */
  lemma {:induction false} BlankTrimsAway(s: string)
    requires IsBlank(s)
    ensures TrimStart(s) == []
  {
    if s != [] {
      assert IsTrimmable(s[0]);
      BlankTrimsAway(s[1..]);
    }
  }

  /** A character `trim` keeps survives it, so the result is not empty. */
  lemma KeptCharSurvivesTrim(s: string, k: nat)
    requires k < |s| && !IsTrimmable(s[k])
    ensures Trim(s) != []
  {
    var front := TrimStart(s);
    var skipped := |s| - |front|;
    assert skipped <= k;
    assert front[k - skipped] == s[k];
    assert |TrimEnd(front)| > k - skipped;
  }

  /** `s.trim()` is the empty (falsy) string exactly when `s` is blank. */
  lemma TrimEmptyIffBlank(s: string)
    ensures Trim(s) == [] <==> IsBlank(s)
  {
    if IsBlank(s) {
      BlankTrimsAway(s);
    } else {
      var k :| 0 <= k < |s| && !IsTrimmable(s[k]);
      KeptCharSurvivesTrim(s, k);
    }
  }

  /** ASCII case folding: upper-case letters become lower-case. */
  function FoldChar(c: char): char
  {
    if 'A' <= c <= 'Z' then (c as int + 32) as char else c
  }

  function Fold(s: string): (r: string)
    ensures |r| == |s|
  {
    seq(|s|, i requires 0 <= i < |s| => FoldChar(s[i]))
  }

  /** `needle` occurs in `haystack` starting at position `i`. */
  predicate OccursAt(haystack: string, needle: string, i: nat)
  {
    i + |needle| <= |haystack| && haystack[i..i + |needle|] == needle
  }

  /** `needle` occurs in `haystack` at some position. */
  predicate Contains(haystack: string, needle: string)
  {
    exists i: nat | i <= |haystack| :: OccursAt(haystack, needle, i)
  }

  /** `contains` with `mode: 'insensitive'`. */
  predicate ContainsInsensitive(haystack: string, needle: string)
  {
    Contains(Fold(haystack), Fold(needle))
  }

  /** A needle longer than the haystack never occurs in it. */
  lemma LongerNeverContained(haystack: string, needle: string)
    requires |needle| > |haystack|
    ensures !ContainsInsensitive(haystack, needle)
  {
  }

  /** A name matches itself written in any case. */
  lemma MatchesItself(name: string, term: string)
    requires Fold(name) == Fold(term)
    ensures ContainsInsensitive(name, term)
  {
    assert OccursAt(Fold(name), Fold(term), 0);
  }

  /** Code-point lexicographic order: `a` sorts before or with `b`. */
  predicate LexLe(a: string, b: string)
  {
    a == [] || (b != [] && (a[0] < b[0] || (a[0] == b[0] && LexLe(a[1..], b[1..]))))
  }

  lemma {:induction false} LexLeTotal(a: string, b: string)
    ensures LexLe(a, b) || LexLe(b, a)
  {
    if a != [] && b != [] && a[0] == b[0] {
      LexLeTotal(a[1..], b[1..]);
    }
  }

  lemma {:induction false} LexLeTrans(a: string, b: string, c: string)
    requires LexLe(a, b) && LexLe(b, c)
    ensures LexLe(a, c)
  {
    if a != [] && a[0] == b[0] && b[0] == c[0] {
      LexLeTrans(a[1..], b[1..], c[1..]);
    }
  }
}
