/**
 * How the two classifier generations relate.  Every button of the final
 * generation is a button of the earlier one, and every text the final
 * generation filters the earlier one filters too, except the function
 * word `联系我们` and text starting with `面包屑`.  The earlier generation
 * filters real titles the final one lets through, so neither filter
 * contains the other.
 */
module FilterComparison {
  import opened Text
  import opened Patterns
  import FinalFilter
  import EarlyFilter

  /** The final generation's substring keywords are all among the earlier, broader ones. */
  lemma ConservativeWithinBroad(k: string)
    requires k in FinalFilter.ConservativeKeywords
    ensures k in EarlyFilter.BroadKeywords
  {
    if k in FinalFilter.HanButtonKeywords {
      assert k in EarlyFilter.BroadHanKeywords;
    } else {
      assert k in EarlyFilter.BroadLatinKeywords;
    }
  }

  /** A final-generation button is an earlier-generation button. */
  lemma FinalButtonIsEarlyButton(text: string)
    ensures FinalFilter.IsButtonText(text) ==> EarlyFilter.IsButtonText(text)
  {
    var s := Lower(Strip(text));
    WholeMatchAppend(s, FinalFilter.ExactButtons, EarlyFilter.EnglishButtons);
    if ContainsAnyKeyword(s, FinalFilter.ConservativeKeywords) {
      var k :| k in FinalFilter.ConservativeKeywords && Contains(s, Lower(k));
      ConservativeWithinBroad(k);
    }
  }

  /** The texts only the final generation filters: stripped and lowered, `联系我们` or `面包屑...`. */
  predicate FinalOnlyShape(text: string) {
    var s := Lower(Strip(text));
    s == "联系我们" || StartsWith(s, "面包屑")
  }

  /** Every navigation word ends in `页`. */
  lemma NavigationWordEndsInPage(t: Token)
    requires t in FinalFilter.NavigationWords
    ensures t.Phrase? && |t.text| >= 2 && t.text[|t.text| - 1] == '页'
  {
  }

  /** Each other whole or prefix word starts with an exclusion keyword, but for `联系我们` and `面包屑`. */
  lemma ChromeWordStartsWithKeyword(t: Token)
    requires t in FinalFilter.FunctionWords || t in FinalFilter.ControlPrefixes || t in FinalFilter.MenuPrefixes
    requires t != Phrase("联系我们") && t != Phrase("面包屑")
    ensures t.Phrase? && |t.text| >= 2 && t.text[..2] in EarlyFilter.ExcludedKeywords
  {
    var p := t.text;
    if |p| == 2 {
      assert p[..2] == p;
    } else if p == "关于我们" {
      assert p[..2] == "关于";
    } else if p == "排序方式" {
      assert p[..2] == "排序";
    } else if p == "筛选条件" {
      assert p[..2] == "筛选";
    } else {
      assert p == "搜索结果";
      assert p[..2] == "搜索";
    }
  }

  /** A pagination prefix always holds `页`. */
  lemma PaginationHoldsPage(s: string, t: Token)
    requires t in FinalFilter.PaginationPrefixes && TokenEnd(s, 0, t).Some?
    ensures Contains(s, "页")
  {
    if t.Counted? {
      var m := SpaceRun(s, DigitRun(s, SpaceRun(s, 1)));
      assert s[m..m + 1] == "页";
      assert MatchesAt(s, "页", m);
    } else {
      assert t == Phrase("页码");
      assert s[0..2] == "页码";
      assert s[0..1] == "页";
      assert MatchesAt(s, "页", 0);
    }
  }

  /** A matched phrase that holds an exclusion keyword excludes the text in the earlier generation. */
  lemma PhraseKeywordExcludes(text: string, p: string, k: string, j: nat)
    requires MatchesAt(Lower(Strip(text)), p, 0)
    requires k in EarlyFilter.ExcludedKeywords && MatchesAt(p, k, j)
    ensures EarlyFilter.IsExcludedContent(text)
  {
    var s := Lower(Strip(text));
    ContainsTransitive(s, p, k);
    EarlyFilter.ExcludedByLoweredKeyword(text, k);
  }

  /** Stripped text cannot end in a newline, so `^...$` matches it only in full. */
  lemma WholeMatchOfStripped(text: string, p: string)
    requires MatchesAt(Lower(Strip(text)), p, 0) && AtEnd(Lower(Strip(text)), |p|)
    ensures Lower(Strip(text)) == p
  {
    var s := Lower(Strip(text));
    if |s| != |p| {
      assert IsSpace(s[|s| - 1]);
    }
  }

  /** What the final exclusion test catches, the earlier one catches too, but for the two shapes. */
  lemma FinalExcludedIsEarlyExcluded(text: string)
    requires FinalFilter.IsExcludedContent(text)
    ensures EarlyFilter.IsExcludedContent(text) || FinalOnlyShape(text)
  {
    if text != [] {
      var s := Lower(Strip(text));
      if PrefixMatch(s, FinalFilter.PaginationPrefixes) {
        PaginationPrefixEarlyExcluded(text);
      } else if WholeMatch(s, FinalFilter.NavigationWords) {
        NavigationWordEarlyExcluded(text);
      } else if WholeMatch(s, FinalFilter.FunctionWords) {
        FunctionWordEarlyExcluded(text);
      } else if PrefixMatch(s, FinalFilter.ControlPrefixes) {
        ControlPrefixEarlyExcluded(text);
      } else {
        MenuPrefixEarlyExcluded(text);
      }
    }
  }

  lemma PaginationPrefixEarlyExcluded(text: string)
    requires PrefixMatch(Lower(Strip(text)), FinalFilter.PaginationPrefixes)
    ensures EarlyFilter.IsExcludedContent(text)
  {
    var s := Lower(Strip(text));
    var t :| t in FinalFilter.PaginationPrefixes && var r := TokenEnd(s, 0, t); r.Some? && RestOfLine(s, r.value);
    PaginationHoldsPage(s, t);
    EarlyFilter.ExcludedByLoweredKeyword(text, "页");
  }

  lemma NavigationWordEarlyExcluded(text: string)
    requires WholeMatch(Lower(Strip(text)), FinalFilter.NavigationWords)
    ensures EarlyFilter.IsExcludedContent(text)
  {
    var s := Lower(Strip(text));
    var t := WholeMatchToken(s, FinalFilter.NavigationWords);
    NavigationWordEndsInPage(t);
    var p := t.text;
    PhraseTokenAt(s, t);
    PageAtEnd(p);
    PageIsKeyword();
    PhraseKeywordExcludes(text, p, "页", |p| - 1);
  }

  /** A literal alternative that matches at the start is written there. */
  lemma PhraseTokenAt(s: string, t: Token)
    requires t.Phrase? && TokenEnd(s, 0, t).Some?
    ensures MatchesAt(s, t.text, 0)
  {
  }

  /** A word ending in `页` holds `页` at its last position. */
  lemma PageAtEnd(p: string)
    requires |p| >= 2 && p[|p| - 1] == '页'
    ensures MatchesAt(p, "页", |p| - 1)
  {
    assert p[|p| - 1..|p|] == "页";
  }

  lemma PageIsKeyword()
    ensures "页" in EarlyFilter.ExcludedKeywords
  {
  }

  lemma FunctionWordEarlyExcluded(text: string)
    requires WholeMatch(Lower(Strip(text)), FinalFilter.FunctionWords)
    ensures EarlyFilter.IsExcludedContent(text) || Lower(Strip(text)) == "联系我们"
  {
    var s := Lower(Strip(text));
    var t :| t in FinalFilter.FunctionWords && var r := TokenEnd(s, 0, t); r.Some? && AtEnd(s, r.value);
    if t == Phrase("联系我们") {
      WholeMatchOfStripped(text, "联系我们");
    } else {
      ChromeWordStartsWithKeyword(t);
      PhraseKeywordExcludes(text, t.text, t.text[..2], 0);
    }
  }

  lemma ControlPrefixEarlyExcluded(text: string)
    requires PrefixMatch(Lower(Strip(text)), FinalFilter.ControlPrefixes)
    ensures EarlyFilter.IsExcludedContent(text)
  {
    var s := Lower(Strip(text));
    var t :| t in FinalFilter.ControlPrefixes && var r := TokenEnd(s, 0, t); r.Some? && RestOfLine(s, r.value);
    ChromeWordStartsWithKeyword(t);
    PhraseKeywordExcludes(text, t.text, t.text[..2], 0);
  }

  lemma MenuPrefixEarlyExcluded(text: string)
    requires PrefixMatch(Lower(Strip(text)), FinalFilter.MenuPrefixes)
    ensures EarlyFilter.IsExcludedContent(text) || StartsWith(Lower(Strip(text)), "面包屑")
  {
    var s := Lower(Strip(text));
    var t :| t in FinalFilter.MenuPrefixes && var r := TokenEnd(s, 0, t); r.Some? && RestOfLine(s, r.value);
    if t == Phrase("面包屑") {
      assert StartsWith(s, "面包屑");
    } else {
      ChromeWordStartsWithKeyword(t);
      PhraseKeywordExcludes(text, t.text, t.text[..2], 0);
    }
  }

  /**
   * Whatever the final generation filters, the earlier one filters too,
   * unless its stripped, lowered form is `联系我们` or starts with `面包屑`.
   */
  lemma FinalFilteredIsEarlyFiltered(text: string)
    ensures FinalFilter.ShouldFilterContent(text).filtered ==> EarlyFilter.IsFiltered(text) || FinalOnlyShape(text)
  {
    FinalFilter.FilteredIffChrome(text);
    FinalButtonIsEarlyButton(text);
    if FinalFilter.IsExcludedContent(text) {
      FinalExcludedIsEarlyExcluded(text);
    }
  }

  // ---------------------------------------------------------------------
  // The exceptions are real in both directions

  /** No shared exact button starts with `联`. */
  lemma ExactButtonsAvoidLian(t: Token)
    requires t in FinalFilter.ExactButtons
    ensures !CanStartWith(t, '联')
  {
    if t in FinalFilter.PagingButtons {
    } else if t in FinalFilter.FunctionButtons || t in FinalFilter.FormButtons {
      FinalFilter.MoreButtonPhrasesProfile(t, '联');
    } else {
      FinalFilter.ButtonPhrasesProfile(t, '联');
    }
  }

  lemma ContactUsNoExactButton(s: string)
    requires |s| > 0 && s[0] == '联'
    ensures !WholeMatch(s, FinalFilter.ExactButtons)
  {
    forall t | t in FinalFilter.ExactButtons ensures !CanStartWith(t, s[0]) {
      ExactButtonsAvoidLian(t);
    }
    NoMatchWithoutStart(s, FinalFilter.ExactButtons);
  }

  /** A lower-case function word, on its own, is excluded content in the final generation. */
  lemma FunctionWordExcluded(s: string)
    requires |s| > 0 && !IsSpace(s[0]) && !IsSpace(s[|s| - 1]) && IsLowercase(s)
    requires Phrase(s) in FinalFilter.FunctionWords
    ensures FinalFilter.IsExcludedContent(s)
  {
    StripUnchanged(s);
    LowerOfLowercase(s);
    PhraseWholeMatch(s, FinalFilter.FunctionWords);
  }

  /** `联系我们` is filtered by the final generation only. */
  lemma ContactUsFinalOnly(text: string)
    requires text == "联系我们"
    ensures FinalFilter.ShouldFilterContent(text) == FinalFilter.Verdict(true, FinalFilter.ExcludedContent)
    ensures !EarlyFilter.IsFiltered(text)
  {
    ContactUsFinalExcluded(text);
    ContactUsPassesEarly(text);
  }

  lemma ContactUsPassesEarly(s: string)
    requires s == "联系我们"
    ensures !EarlyFilter.IsFiltered(s)
  {
    ContactUsNoExactButton(s);
    EarlyFilter.EarlyHanTextPasses(s);
  }

  lemma ContactUsFinalExcluded(s: string)
    requires s == "联系我们"
    ensures FinalFilter.ShouldFilterContent(s) == FinalFilter.Verdict(true, FinalFilter.ExcludedContent)
  {
    ContactUsNoExactButton(s);
    FinalFilter.HanTextNotButton(s);
    FunctionWordExcluded(s);
  }

  /** `面包屑` is filtered by the final generation only. */
  lemma BreadcrumbFinalOnly(text: string)
    requires text == "面包屑"
    ensures FinalFilter.ShouldFilterContent(text) == FinalFilter.Verdict(true, FinalFilter.ExcludedContent)
    ensures !EarlyFilter.IsFiltered(text)
  {
    BreadcrumbFinalExcluded(text);
    BreadcrumbPassesEarly(text);
  }

  lemma BreadcrumbPassesEarly(s: string)
    requires s == "面包屑"
    ensures !EarlyFilter.IsFiltered(s)
  {
    FinalFilter.NoExactButton(s);
    EarlyFilter.EarlyHanTextPasses(s);
  }

  lemma BreadcrumbFinalExcluded(s: string)
    requires s == "面包屑"
    ensures FinalFilter.ShouldFilterContent(s) == FinalFilter.Verdict(true, FinalFilter.ExcludedContent)
  {
    FinalFilter.NoExactButton(s);
    assert s == s + [];
    FinalFilter.HanControlTextExcluded(s, "面包屑", []);
  }

  /** `学校生活分享` is filtered by the earlier generation only. */
  lemma SchoolLifeSharingEarlyOnly(text: string)
    requires text == "学校生活分享"
    ensures EarlyFilter.IsFiltered(text) && !FinalFilter.ShouldFilterContent(text).filtered
  {
    EarlyFilter.SchoolLifeSharingFiltered(text);
    FinalFilter.CampusLifeSharingTitlePasses(text);
  }
}
