/**
 * Hand-coded matchers for the regular expressions of the two classifier
 * generations.  Every one of them is an alternation of literal phrases and of
 * the shapes `第\s*\d+\s*页`, `共\s*\d+\s*页` and `页码\s*\d+`, anchored at the
 * start with `^` and closed by `$`, by `.*$` or by `)+$`.  Python's `$` also
 * matches just before a newline that ends the text, and `.` never matches a
 * newline; both are modelled.
 */
module Patterns {
  import opened Text
  import opened Wrappers

  /** One alternative of an alternation. */
  datatype Token =
    | Phrase(text: string)  // a literal phrase
    | Counted(lead: char)   // lead \s* \d+ \s* 页, as in 第 3 页 or 共12页
    | PageCode              // 页码 \s* \d+

  /** The end of the longest run of whitespace starting at `s[i]`. */
  function SpaceRun(s: string, i: nat): (j: nat)
    requires i <= |s|
    ensures i <= j <= |s| && AllSpace(s[i..j]) && (j == |s| || !IsSpace(s[j]))
    decreases |s| - i
  {
    if i < |s| && IsSpace(s[i]) then SpaceRun(s, i + 1) else i
  }

  /** The end of the longest run of digits starting at `s[i]`. */
  function DigitRun(s: string, i: nat): (j: nat)
    requires i <= |s|
    ensures i <= j <= |s| && AllDigits(s[i..j]) && (j == |s| || !IsDigit(s[j]))
    decreases |s| - i
  {
    if i < |s| && IsDigit(s[i]) then DigitRun(s, i + 1) else i
  }

  /**
   * Where a match of `t` that starts at `s[i]` ends.  Whitespace and digits
   * are disjoint and `页` is neither, so each token matches in at most one way
   * (for `PageCode`, the one that a following `$` accepts).
   */
  function TokenEnd(s: string, i: nat, t: Token): (r: Option<nat>)
    requires i <= |s|
    ensures r.Some? ==> i < r.value <= |s|
  {
    match t
    case Phrase(p) =>
      if |p| > 0 && MatchesAt(s, p, i) then Some(i + |p|) else None
    case Counted(lead) =>
      if i < |s| && s[i] == lead then
        var j := SpaceRun(s, i + 1);
        var k := DigitRun(s, j);
        var m := SpaceRun(s, k);
        if j < k && m < |s| && s[m] == '页' then Some(m + 1) else None
      else None
    case PageCode =>
      if MatchesAt(s, "页码", i) then
        var j := SpaceRun(s, i + 2);
        var k := DigitRun(s, j);
        if j < k then Some(k) else None
      else None
  }

  /** `w` is, in full, `lead`, optional whitespace, digits, optional whitespace and `页`. */
  ghost predicate IsCountedPhrase(w: string, lead: char) {
    exists j, k :: CountedShape(w, lead, j, k)
  }

  /** `w` is `lead`, whitespace `w[1..j]`, digits `w[j..k]`, whitespace `w[k..|w| - 1]` and `页`. */
  predicate CountedShape(w: string, lead: char, j: nat, k: nat) {
    && |w| >= 3 && w[0] == lead && w[|w| - 1] == '页'
    && 1 <= j < k <= |w| - 1 && AllSpace(w[1..j]) && AllDigits(w[j..k]) && AllSpace(w[k..|w| - 1])
  }

  /** The first character a match of `t` can have. */
  predicate CanStartWith(t: Token, c: char) {
    match t
    case Phrase(p) => |p| > 0 && p[0] == c
    case Counted(lead) => lead == c
    case PageCode => c == '页'
  }

  /** Python's `$`: the end of the text, or just before a newline that ends it. */
  predicate AtEnd(s: string, e: nat) {
    e == |s| || (e + 1 == |s| && s[e] == '\n')
  }

  /** `.*$` from `s[e]`: no newline follows, except possibly one that ends the text. */
  predicate RestOfLine(s: string, e: nat)
    requires e <= |s|
  {
    '\n' !in s[e..] || (e < |s| && s[|s| - 1] == '\n' && '\n' !in s[e..|s| - 1])
  }

  /** `re.search(r'^(t1|t2|...)$', s)` */
  predicate WholeMatch(s: string, alts: seq<Token>) {
    exists t :: t in alts && var r := TokenEnd(s, 0, t); r.Some? && AtEnd(s, r.value)
  }

  /** `re.search(r'^(t1|t2|...).*$', s)` */
  predicate PrefixMatch(s: string, alts: seq<Token>) {
    exists t :: t in alts && var r := TokenEnd(s, 0, t); r.Some? && RestOfLine(s, r.value)
  }

  /** `s[i..e]` is one or more tokens of `alts` in a row. */
  predicate CoversTo(s: string, i: nat, e: nat, alts: seq<Token>)
    requires i <= e <= |s|
    decreases e - i
  {
    exists t :: t in alts &&
      var r := TokenEnd(s, i, t);
      r.Some? && r.value <= e && (r.value == e || CoversTo(s, r.value, e, alts))
  }

  /** `re.search(r'^(t1|t2|...)+$', s)` */
  predicate RepeatedMatch(s: string, alts: seq<Token>) {
    CoversTo(s, 0, |s|, alts) || (|s| > 0 && s[|s| - 1] == '\n' && CoversTo(s, 0, |s| - 1, alts))
  }

  /** A run computed by `SpaceRun` is the only maximal one. */
  lemma SpaceRunUnique(s: string, i: nat, j: nat)
    requires i <= j <= |s| && AllSpace(s[i..j]) && (j == |s| || !IsSpace(s[j]))
    ensures SpaceRun(s, i) == j
  {
    var r := SpaceRun(s, i);
    assert forall p :: i <= p < j ==> IsSpace(s[p]) by {
      forall p | i <= p < j ensures IsSpace(s[p]) { assert s[i..j][p - i] == s[p]; }
    }
    assert forall p :: i <= p < r ==> IsSpace(s[p]) by {
      forall p | i <= p < r ensures IsSpace(s[p]) { assert s[i..r][p - i] == s[p]; }
    }
  }

  lemma DigitRunUnique(s: string, i: nat, j: nat)
    requires i <= j <= |s| && AllDigits(s[i..j]) && (j == |s| || !IsDigit(s[j]))
    ensures DigitRun(s, i) == j
  {
    var r := DigitRun(s, i);
    assert forall p :: i <= p < j ==> IsDigit(s[p]) by {
      forall p | i <= p < j ensures IsDigit(s[p]) { assert s[i..j][p - i] == s[p]; }
    }
    assert forall p :: i <= p < r ==> IsDigit(s[p]) by {
      forall p | i <= p < r ensures IsDigit(s[p]) { assert s[i..r][p - i] == s[p]; }
    }
  }

  /**
   * The matcher for `lead\s*\d+\s*页` accepts exactly the texts of that shape:
   * it ends a match at `e` if and only if `s[i..e]` is such a phrase.
   */
  lemma CountedEndExact(s: string, i: nat, lead: char, e: nat)
    requires i <= e <= |s|
    ensures TokenEnd(s, i, Counted(lead)) == Some(e) <==> IsCountedPhrase(s[i..e], lead)
  {
    if TokenEnd(s, i, Counted(lead)) == Some(e) {
      CountedEndSound(s, i, lead, e);
    }
    if IsCountedPhrase(s[i..e], lead) {
      CountedEndComplete(s, i, lead, e);
    }
  }

  lemma CountedEndSound(s: string, i: nat, lead: char, e: nat)
    requires i <= e <= |s| && TokenEnd(s, i, Counted(lead)) == Some(e)
    ensures IsCountedPhrase(s[i..e], lead)
  {
    var w := s[i..e];
    var j := SpaceRun(s, i + 1);
    var k := DigitRun(s, j);
    SliceOfSlice(s, i, e, 1, j - i);
    SliceOfSlice(s, i, e, j - i, k - i);
    SliceOfSlice(s, i, e, k - i, |w| - 1);
    assert CountedShape(w, lead, j - i, k - i);
  }

  lemma CountedEndComplete(s: string, i: nat, lead: char, e: nat)
    requires i <= e <= |s| && IsCountedPhrase(s[i..e], lead)
    ensures TokenEnd(s, i, Counted(lead)) == Some(e)
  {
    var w := s[i..e];
    var j, k :| CountedShape(w, lead, j, k);
    CountedShapeInPlace(s, i, e, lead, j, k);
    CountedRuns(s, i, i + j, i + k, e);
  }

  /** A counted shape of `s[i..e]`, stated on `s` itself. */
  lemma CountedShapeInPlace(s: string, i: nat, e: nat, lead: char, j: nat, k: nat)
    requires i <= e <= |s| && CountedShape(s[i..e], lead, j, k)
    ensures i + j < e && s[i] == lead && s[e - 1] == '页'
    ensures AllSpace(s[i + 1..i + j]) && AllDigits(s[i + j..i + k]) && AllSpace(s[i + k..e - 1])
  {
    SliceOfSlice(s, i, e, 1, j);
    SliceOfSlice(s, i, e, j, k);
    SliceOfSlice(s, i, e, k, e - i - 1);
  }

  /** The three runs of a counted phrase, stated on `s` itself. */
  lemma CountedRuns(s: string, i: nat, j: nat, k: nat, e: nat)
    requires i < j < k < e <= |s| && s[e - 1] == '页'
    requires AllSpace(s[i + 1..j]) && AllDigits(s[j..k]) && AllSpace(s[k..e - 1])
    ensures TokenEnd(s, i, Counted(s[i])) == Some(e)
  {
    assert IsDigit(s[j..k][0]);
    SpaceRunUnique(s, i + 1, j);
    if k < e - 1 {
      assert IsSpace(s[k..e - 1][0]);
    }
    DigitRunUnique(s, j, k);
    SpaceRunUnique(s, k, e - 1);
  }

  /** A match of a token begins with the character the token starts with. */
  lemma TokenStart(s: string, i: nat, t: Token)
    requires i <= |s| && TokenEnd(s, i, t).Some?
    ensures i < |s| && CanStartWith(t, s[i])
  {
    if t.Phrase? {
      assert s[i..i + |t.text|][0] == s[i];
    } else if t.PageCode? {
      assert s[i..i + 2][0] == s[i];
    }
  }

  /** No token of `alts` can start at `s[i]`, so no run of tokens covers `s[i..e]`. */
  lemma NoCoverWithoutStart(s: string, i: nat, e: nat, alts: seq<Token>)
    requires i <= e <= |s|
    requires i < |s| ==> forall t :: t in alts ==> !CanStartWith(t, s[i])
    ensures !CoversTo(s, i, e, alts)
  {
    forall t | t in alts && TokenEnd(s, i, t).Some? ensures false {
      TokenStart(s, i, t);
    }
  }

  /** Neither `^(...)$` nor `^(...).*$` matches when no alternative can start with the first character. */
  lemma NoMatchWithoutStart(s: string, alts: seq<Token>)
    requires |s| > 0 ==> forall t :: t in alts ==> !CanStartWith(t, s[0])
    ensures !WholeMatch(s, alts) && !PrefixMatch(s, alts) && !RepeatedMatch(s, alts)
  {
    forall t | t in alts && TokenEnd(s, 0, t).Some? ensures false {
      TokenStart(s, 0, t);
    }
    NoCoverWithoutStart(s, 0, |s|, alts);
    if |s| > 0 {
      NoCoverWithoutStart(s, 0, |s| - 1, alts);
    }
  }

  /** An alternative that matches all of `s`. */
  lemma WholeMatchToken(s: string, alts: seq<Token>) returns (t: Token)
    requires WholeMatch(s, alts)
    ensures t in alts && TokenEnd(s, 0, t).Some? && AtEnd(s, TokenEnd(s, 0, t).value)
  {
    t :| t in alts && var r := TokenEnd(s, 0, t); r.Some? && AtEnd(s, r.value);
  }

  /** A literal alternative that is the whole text matches `^(...)$`. */
  lemma PhraseWholeMatch(s: string, alts: seq<Token>)
    requires |s| > 0 && Phrase(s) in alts
    ensures WholeMatch(s, alts)
  {
    assert MatchesAt(s, s, 0);
    assert TokenEnd(s, 0, Phrase(s)) == Some(|s|);
  }

  /** A literal alternative followed by the rest of a line matches `^(...).*$`. */
  lemma PhrasePrefixMatch(p: string, rest: string, alts: seq<Token>)
    requires |p| > 0 && Phrase(p) in alts && '\n' !in rest
    ensures PrefixMatch(p + rest, alts)
  {
    var s := p + rest;
    assert s[..|p|] == p;
    assert TokenEnd(s, 0, Phrase(p)) == Some(|p|);
    assert s[|p|..] == rest;
  }

  /**
   * When every token of `alts` that matches at `s[i]` ends at `r`, and no
   * run of tokens covers `s[r..e]`, no run covers `s[i..e]` either.
   */
  lemma NoCoverPastOnlyEnd(s: string, i: nat, r: nat, e: nat, alts: seq<Token>)
    requires i <= e <= |s| && r != e
    requires forall t :: t in alts && TokenEnd(s, i, t).Some? ==> TokenEnd(s, i, t) == Some(r)
    requires r <= e ==> !CoversTo(s, r, e, alts)
    ensures !CoversTo(s, i, e, alts)
  {
  }

  /** `^(a|b)$` over two lists of alternatives matches exactly when one of the lists does. */
  lemma WholeMatchAppend(s: string, a: seq<Token>, b: seq<Token>)
    ensures WholeMatch(s, a + b) <==> WholeMatch(s, a) || WholeMatch(s, b)
  {
    if WholeMatch(s, a + b) {
      var t :| t in a + b && var r := TokenEnd(s, 0, t); r.Some? && AtEnd(s, r.value);
      assert t in a || t in b;
    }
    if WholeMatch(s, a) {
      var t :| t in a && var r := TokenEnd(s, 0, t); r.Some? && AtEnd(s, r.value);
      assert t in a + b;
    }
    if WholeMatch(s, b) {
      var t :| t in b && var r := TokenEnd(s, 0, t); r.Some? && AtEnd(s, r.value);
      assert t in a + b;
    }
  }
  // ---------------------------------------------------------------------
  // `^(t1|t2|...)+$` as a sequence of pieces

  /** The words of `ws`, written one after the other. */
  function Concat(ws: seq<string>): string {
    if ws == [] then [] else ws[0] + Concat(ws[1..])
  }

  /** `w` is, in full, one literal or counted alternative of `alts`. */
  ghost predicate IsPiece(w: string, alts: seq<Token>) {
    (Phrase(w) in alts && w != [])
    || (exists lead :: Counted(lead) in alts && IsCountedPhrase(w, lead))
  }

  /** Where a single piece of `alts` is written at `s[i..r]`, some alternative matches there and ends at `r`. */
  lemma PieceMatches(s: string, i: nat, r: nat, alts: seq<Token>) returns (t: Token)
    requires i <= r <= |s| && IsPiece(s[i..r], alts)
    ensures t in alts && TokenEnd(s, i, t) == Some(r)
  {
    var w := s[i..r];
    if Phrase(w) in alts && w != [] {
      t := Phrase(w);
      assert MatchesAt(s, w, i);
    } else {
      var lead :| Counted(lead) in alts && IsCountedPhrase(w, lead);
      t := Counted(lead);
      CountedEndExact(s, i, lead, r);
    }
  }

  /** Pieces of `alts` written one after the other are covered by a run of its tokens. */
  lemma {:induction false} PiecesCover(s: string, i: nat, e: nat, ws: seq<string>, alts: seq<Token>)
    requires i <= e <= |s| && |ws| > 0 && s[i..e] == Concat(ws)
    requires forall k :: 0 <= k < |ws| ==> IsPiece(ws[k], alts)
    ensures CoversTo(s, i, e, alts)
    decreases |ws|
  {
    var w := ws[0];
    var r := i + |w|;
    assert Concat(ws) == w + Concat(ws[1..]);
    assert s[i..r] == w by {
      assert s[i..r] == s[i..e][..|w|];
    }
    assert IsPiece(ws[0], alts);
    var t := PieceMatches(s, i, r, alts);
    if |ws| > 1 {
      assert s[r..e] == Concat(ws[1..]) by {
        assert s[r..e] == s[i..e][|w|..];
      }
      forall k | 0 <= k < |ws[1..]| ensures IsPiece(ws[1..][k], alts) {
        assert ws[1..][k] == ws[k + 1];
      }
      PiecesCover(s, r, e, ws[1..], alts);
    } else {
      assert Concat(ws[1..]) == [];
    }
  }

  /** A match of one counted or literal alternative is a piece. */
  lemma TokenPiece(s: string, i: nat, t: Token, alts: seq<Token>)
    requires i <= |s| && t in alts && !t.PageCode? && TokenEnd(s, i, t).Some?
    ensures IsPiece(s[i..TokenEnd(s, i, t).value], alts)
  {
    var r := TokenEnd(s, i, t).value;
    if t.Counted? {
      CountedEndExact(s, i, t.lead, r);
    } else {
      assert s[i..r] == t.text;
    }
  }

  /** The first token of a run that covers `s[i..e]`, and where it ends. */
  lemma CoverFirst(s: string, i: nat, e: nat, alts: seq<Token>) returns (t: Token, r: nat)
    requires i <= e <= |s| && CoversTo(s, i, e, alts)
    ensures t in alts && TokenEnd(s, i, t) == Some(r) && i < r <= e
    ensures r < e ==> CoversTo(s, r, e, alts)
  {
    t :| t in alts && var m := TokenEnd(s, i, t); m.Some? && m.value <= e && (m.value == e || CoversTo(s, m.value, e, alts));
    r := TokenEnd(s, i, t).value;
  }

  /** A piece followed by a run of pieces is a run of pieces. */
  lemma ConcatCons(w: string, rest: seq<string>)
    ensures Concat([w] + rest) == w + Concat(rest)
  {
    assert ([w] + rest)[1..] == rest;
  }

  /** A piece at `s[i..r]` followed by pieces that make up `s[r..e]` make up `s[i..e]`. */
  lemma PiecesJoin(s: string, i: nat, r: nat, e: nat, rest: seq<string>, alts: seq<Token>)
    requires i <= r <= e <= |s| && IsPiece(s[i..r], alts)
    requires Concat(rest) == s[r..e] && forall k :: 0 <= k < |rest| ==> IsPiece(rest[k], alts)
    ensures Concat([s[i..r]] + rest) == s[i..e]
    ensures forall k :: 0 <= k < |[s[i..r]] + rest| ==> IsPiece(([s[i..r]] + rest)[k], alts)
  {
    var ws := [s[i..r]] + rest;
    ConcatCons(s[i..r], rest);
    assert s[i..e] == s[i..r] + s[r..e];
    forall k | 0 <= k < |ws| ensures IsPiece(ws[k], alts) {
      if k > 0 {
        assert ws[k] == rest[k - 1];
      }
    }
  }

  /**
   * Conversely, a run of tokens of `alts` (none of them `页码\s*\d+`) that
   * covers `s[i..e]` cuts it into pieces of `alts`.
   */
  lemma {:induction false} CoverPieces(s: string, i: nat, e: nat, alts: seq<Token>) returns (ws: seq<string>)
    requires i <= e <= |s| && CoversTo(s, i, e, alts)
    requires forall t :: t in alts ==> !t.PageCode?
    ensures |ws| > 0 && Concat(ws) == s[i..e]
    ensures forall k :: 0 <= k < |ws| ==> IsPiece(ws[k], alts)
    decreases e - i
  {
    var t, r := CoverFirst(s, i, e, alts);
    TokenPiece(s, i, t, alts);
    var w := s[i..r];
    if r == e {
      ws := [w];
      ConcatCons(w, []);
    } else {
      var rest := CoverPieces(s, r, e, alts);
      ws := [w] + rest;
      PiecesJoin(s, i, r, e, rest, alts);
    }
  }
}
