/**
 * The parts of Python's `str` that the plugin and its classifiers rely on:
 * the whitespace and digit classes, `strip()`, `lower()`, `startswith` and
 * the substring test `sub in s`.
 *
 * Whitespace is the set CPython's `str.isspace()` accepts, which is also the
 * set `strip()` removes and the regex class `\s` matches.  Digits and case
 * conversion are ASCII only (Python's `\d` and `lower()` also cover other
 * scripts).
 */
module Text {

  /** A character that `str.strip()` removes and `\s` matches. */
  predicate IsSpace(c: char) {
    ('\t' <= c <= '\r') || ('\U{1C}' <= c <= ' ') || c == '\U{85}' || c == '\U{A0}'
    || c == '\U{1680}' || ('\U{2000}' <= c <= '\U{200A}') || c == '\U{2028}' || c == '\U{2029}'
    || c == '\U{202F}' || c == '\U{205F}' || c == '\U{3000}'
  }

  /** The regex class `\d`, ASCII digits only. */
  predicate IsDigit(c: char) {
    '0' <= c <= '9'
  }

  predicate IsUpper(c: char) {
    'A' <= c <= 'Z'
  }

  predicate AllSpace(s: string) {
    forall i :: 0 <= i < |s| ==> IsSpace(s[i])
  }

  predicate AllDigits(s: string) {
    forall i :: 0 <= i < |s| ==> IsDigit(s[i])
  }

  /** `c.lower()` for one character. */
  function LowerChar(c: char): (r: char)
    ensures !IsUpper(r)
    ensures r != c ==> IsUpper(c)
    ensures IsSpace(r) == IsSpace(c) && IsDigit(r) == IsDigit(c)
  {
    if IsUpper(c) then (c as int + 32) as char else c
  }

  /** `s.lower()`: the same length, every character lowered. */
  function Lower(s: string): (r: string)
    ensures |r| == |s|
    ensures forall i :: 0 <= i < |s| ==> r[i] == LowerChar(s[i])
  {
    seq(|s|, i requires 0 <= i < |s| => LowerChar(s[i]))
  }

  lemma LowerAppend(a: string, b: string)
    ensures Lower(a + b) == Lower(a) + Lower(b)
  {
  }

  lemma LowerSlice(s: string, i: nat, j: nat)
    requires i <= j <= |s|
    ensures Lower(s[i..j]) == Lower(s)[i..j]
  {
  }

  /** Lowering text that holds no upper-case letter leaves it as it is. */
  lemma LowerOfLowercase(s: string)
    requires IsLowercase(s)
    ensures Lower(s) == s
  {
  }

  /** Lowering text that holds one upper-case letter lowers just that letter. */
  lemma LowerOneCapital(a: string, c: char, b: string)
    requires IsLowercase(a) && IsLowercase(b)
    ensures Lower(a + [c] + b) == a + [LowerChar(c)] + b
  {
  }

  /** The lowered form of a part of a text occurs in the lowered text. */
  lemma LowerContainsPart(a: string, m: string, b: string)
    ensures Contains(Lower(a + m + b), Lower(m))
  {
    var s := a + m + b;
    assert s[|a|..|a| + |m|] == m;
    LowerSlice(s, |a|, |a| + |m|);
    assert MatchesAt(Lower(s), Lower(m), |a|);
  }

  /** An occurrence survives lowering, as the lowered phrase. */
  lemma LowerKeepsOccurrence(s: string, sub: string)
    requires Contains(s, sub)
    ensures Contains(Lower(s), Lower(sub))
  {
    var i: nat :| i <= |s| && MatchesAt(s, sub, i);
    LowerSlice(s, i, i + |sub|);
    assert MatchesAt(Lower(s), Lower(sub), i);
  }

  /** A character missing from `s` in both cases is missing from `s.lower()`. */
  lemma LowerAbsent(s: string, c: char)
    requires c !in s
    requires 'a' <= c <= 'z' ==> (c as int - 32) as char !in s
    ensures c !in Lower(s)
  {
    forall i | 0 <= i < |s| ensures Lower(s)[i] != c {
      assert s[i] in s;
    }
  }

  /** The first position at or after `i` that holds no whitespace (or the end). */
  function SkipSpace(s: string, i: nat): (j: nat)
    requires i <= |s|
    ensures i <= j <= |s| && (j == |s| || !IsSpace(s[j]))
    ensures forall p :: i <= p < j ==> IsSpace(s[p])
    decreases |s| - i
  {
    if i < |s| && IsSpace(s[i]) then SkipSpace(s, i + 1) else i
  }

  /** The position just after the last character before `j` that is no whitespace (or 0). */
  function SkipSpaceBack(s: string, j: nat): (i: nat)
    requires j <= |s|
    ensures i <= j && (i == 0 || !IsSpace(s[i - 1]))
    ensures forall p :: i <= p < j ==> IsSpace(s[p])
  {
    if j > 0 && IsSpace(s[j - 1]) then SkipSpaceBack(s, j - 1) else j
  }

  /** `s.lstrip()`: what follows the leading whitespace. */
  function TrimStart(s: string): (r: string)
    ensures |r| <= |s| && r == s[|s| - |r|..]
    ensures forall i :: 0 <= i < |s| - |r| ==> IsSpace(s[i])
    ensures r == [] || !IsSpace(r[0])
  {
    s[SkipSpace(s, 0)..]
  }

  /** `s.rstrip()`: what precedes the trailing whitespace. */
  function TrimEnd(s: string): (r: string)
    ensures |r| <= |s| && r == s[..|r|]
    ensures forall i :: |r| <= i < |s| ==> IsSpace(s[i])
    ensures r == [] || !IsSpace(r[|r| - 1])
  {
    s[..SkipSpaceBack(s, |s|)]
  }

  /** `s.strip()`: `s` without its leading and trailing whitespace. */
  function Strip(s: string): (r: string)
    ensures |r| <= |s|
    ensures r == [] || (!IsSpace(r[0]) && !IsSpace(r[|r| - 1]))
  {
    TrimEnd(TrimStart(s))
  }

  /** Text that is all whitespace strips to the empty string, and only such text does. */
  lemma StripEmpty(s: string)
    ensures Strip(s) == [] <==> AllSpace(s)
  {
    var t := TrimStart(s);
    if Strip(s) == [] {
      assert TrimEnd(t) == [];
    }
  }

  /** Text without whitespace at either end is its own `strip()`. */
  lemma StripUnchanged(s: string)
    requires s == [] || (!IsSpace(s[0]) && !IsSpace(s[|s| - 1]))
    ensures Strip(s) == s
  {
  }

  /** An occurrence of a phrase that starts and ends with non-whitespace survives `strip()`. */
  lemma StripKeepsOccurrence(s: string, sub: string)
    requires Contains(s, sub) && |sub| > 0 && !IsSpace(sub[0]) && !IsSpace(sub[|sub| - 1])
    ensures Contains(Strip(s), sub)
  {
    TrimStartKeepsOccurrence(s, sub);
    TrimEndKeepsOccurrence(TrimStart(s), sub);
  }

  lemma TrimStartKeepsOccurrence(s: string, sub: string)
    requires Contains(s, sub) && |sub| > 0 && !IsSpace(sub[0])
    ensures Contains(TrimStart(s), sub)
  {
    var i: nat :| i <= |s| && MatchesAt(s, sub, i);
    assert s[i..i + |sub|][0] == s[i];
    var t := TrimStart(s);
    var a := |s| - |t|;
    assert a <= i;
    assert t[i - a..i - a + |sub|] == s[i..i + |sub|];
    assert MatchesAt(t, sub, i - a);
  }

  lemma TrimEndKeepsOccurrence(s: string, sub: string)
    requires Contains(s, sub) && |sub| > 0 && !IsSpace(sub[|sub| - 1])
    ensures Contains(TrimEnd(s), sub)
  {
    var i: nat :| i <= |s| && MatchesAt(s, sub, i);
    assert s[i..i + |sub|][|sub| - 1] == s[i + |sub| - 1];
    var r := TrimEnd(s);
    assert i + |sub| <= |r|;
    assert r[i..i + |sub|] == s[i..i + |sub|];
    assert MatchesAt(r, sub, i);
  }

  /** `lower()` and `strip()` commute, so `text.lower().strip()` equals `text.strip().lower()`. */
  lemma StripLowerCommute(s: string)
    ensures Strip(Lower(s)) == Lower(Strip(s))
  {
    TrimStartLower(s);
    TrimEndLower(TrimStart(s));
  }

  lemma TrimStartLower(s: string)
    ensures TrimStart(Lower(s)) == Lower(TrimStart(s))
  {
    SkipSpaceLower(s, 0);
    LowerSlice(s, SkipSpace(s, 0), |s|);
  }

  lemma TrimEndLower(s: string)
    ensures TrimEnd(Lower(s)) == Lower(TrimEnd(s))
  {
    SkipSpaceBackLower(s, |s|);
    LowerSlice(s, 0, SkipSpaceBack(s, |s|));
  }

  /** Lowering keeps every whitespace position, so the skips land at the same place. */
  lemma {:induction false} SkipSpaceLower(s: string, i: nat)
    requires i <= |s|
    ensures SkipSpace(Lower(s), i) == SkipSpace(s, i)
    decreases |s| - i
  {
    if i < |s| && IsSpace(s[i]) {
      SkipSpaceLower(s, i + 1);
    }
  }

  lemma {:induction false} SkipSpaceBackLower(s: string, j: nat)
    requires j <= |s|
    ensures SkipSpaceBack(Lower(s), j) == SkipSpaceBack(s, j)
  {
    if j > 0 && IsSpace(s[j - 1]) {
      SkipSpaceBackLower(s, j - 1);
    }
  }

  lemma SliceOfSlice(s: string, i: nat, e: nat, a: nat, b: nat)
    requires i <= e <= |s| && a <= b <= e - i
    ensures s[i..e][a..b] == s[i + a..i + b]
  {
    assert forall p :: 0 <= p < b - a ==> s[i..e][a..b][p] == s[i + a + p];
  }

  /** `s.startswith(prefix)` */
  predicate StartsWith(s: string, prefix: string) {
    |prefix| <= |s| && s[..|prefix|] == prefix
  }

  predicate MatchesAt(s: string, sub: string, i: nat) {
    i + |sub| <= |s| && s[i..i + |sub|] == sub
  }

  /** `sub in s` */
  predicate Contains(s: string, sub: string) {
    exists i: nat :: i <= |s| && MatchesAt(s, sub, i)
  }

  /** `any(k.lower() in s for k in keywords)` */
  predicate ContainsAnyKeyword(s: string, keywords: seq<string>) {
    exists k :: k in keywords && Contains(s, Lower(k))
  }

  lemma ContainsAnyKeywordAppend(s: string, a: seq<string>, b: seq<string>)
    ensures ContainsAnyKeyword(s, a + b) <==> ContainsAnyKeyword(s, a) || ContainsAnyKeyword(s, b)
  {
    if ContainsAnyKeyword(s, a + b) {
      var k :| k in a + b && Contains(s, Lower(k));
      assert k in a || k in b;
    }
    if ContainsAnyKeyword(s, b) {
      var k :| k in b && Contains(s, Lower(k));
      assert k in a + b;
    }
  }

  /** A keyword that has a character `s` lacks does not occur in `s`. */
  lemma AbsentChar(s: string, sub: string, k: nat)
    requires k < |sub| && sub[k] !in s
    ensures !Contains(s, sub)
  {
    forall i: nat | i <= |s| && MatchesAt(s, sub, i) ensures false {
    }
  }

  predicate IsLowercase(w: string) {
    forall i :: 0 <= i < |w| ==> !IsUpper(w[i])
  }

  /** No position of `s` holds `x` followed by `y`. */
  predicate LacksPair(s: string, x: char, y: char) {
    forall i :: 0 <= i < |s| - 1 ==> s[i] != x || s[i + 1] != y
  }

  /** A keyword holding two adjacent characters that never appear adjacent in `s` does not occur in it. */
  lemma AbsentPair(s: string, sub: string, k: nat)
    requires k + 1 < |sub| && LacksPair(s, sub[k], sub[k + 1])
    ensures !Contains(s, sub)
  {
    forall i: nat | i <= |s| && MatchesAt(s, sub, i) ensures false {
    }
  }

  /**
   * An occurrence of `sub` in `a + [c] + b` lies inside `a` or inside `b`
   * when `sub` does not contain the separator `c`.
   */
  lemma SplitAt(a: string, c: char, b: string, sub: string)
    requires c !in sub
    ensures Contains(a + [c] + b, sub) ==> Contains(a, sub) || Contains(b, sub)
  {
    var s := a + [c] + b;
    forall i: nat | i <= |s| && MatchesAt(s, sub, i) ensures Contains(a, sub) || Contains(b, sub) {
      assert s[|a|] == c;
      assert forall p :: i <= p < i + |sub| ==> s[p] == sub[p - i];
      if i + |sub| <= |a| {
        assert a[i..i + |sub|] == s[i..i + |sub|];
        assert MatchesAt(a, sub, i);
      } else if i > |a| {
        assert b[i - |a| - 1..i - |a| - 1 + |sub|] == s[i..i + |sub|];
        assert MatchesAt(b, sub, i - |a| - 1);
      } else {
        assert false;
      }
    }
  }

  /** An occurrence inside an occurrence is an occurrence. */
  lemma ContainsTransitive(s: string, mid: string, sub: string)
    requires Contains(s, mid) && Contains(mid, sub)
    ensures Contains(s, sub)
  {
    var i: nat :| i <= |s| && MatchesAt(s, mid, i);
    var j: nat :| j <= |mid| && MatchesAt(mid, sub, j);
    forall k | 0 <= k < |sub| ensures s[i + j + k] == sub[k] {
      assert mid[j + k] == sub[k];
      assert s[i..i + |mid|][j + k] == s[i + j + k];
    }
    assert s[i + j..i + j + |sub|] == sub;
    assert MatchesAt(s, sub, i + j);
  }

  lemma PrefixContained(s: string, prefix: string)
    requires StartsWith(s, prefix)
    ensures Contains(s, prefix)
  {
    assert MatchesAt(s, prefix, 0);
  }
}
