/**
 * The earlier generation of the page-chrome classifier.  Its button test
 * tries the same exact patterns as the final generation plus ten English
 * ones, then a broad list of substring keywords; its exclusion test is a
 * plain substring search for twelve keywords.  A text is filtered when
 * either test holds.
 */
module EarlyFilter {
  import opened Text
  import opened Patterns
  import FinalFilter

  /** `^post$`, `^new post$`, ...: the English buttons, matched case-insensitively. */
  const EnglishButtons: seq<Token> :=
    [Phrase("post"), Phrase("new post"), Phrase("create"), Phrase("login"), Phrase("register"),
     Phrase("search"), Phrase("more"), Phrase("next"), Phrase("prev"), Phrase("home")]

  /** The exact button patterns: the ones both generations share, then the English ones. */
  const ExactButtons: seq<Token> := FinalFilter.ExactButtons + EnglishButtons

  /** The broad substring keywords: the Chinese ones, then the English ones. */
  const BroadHanKeywords: seq<string> :=
    ["回复", "编辑", "删除", "举报", "分享", "点赞", "收藏", "提交", "确定", "取消", "关闭", "展开", "收起"]

  const BroadLatinKeywords: seq<string> :=
    ["reply", "edit", "delete", "report", "share", "like", "save", "submit", "ok", "cancel", "close",
     "expand", "collapse"]

  const BroadKeywords: seq<string> := BroadHanKeywords + BroadLatinKeywords

  /** The keywords whose mere presence excludes a text. */
  const ExcludedKeywords: seq<string> :=
    ["发帖", "登录", "注册", "排序", "筛选", "页", "菜单", "导航", "搜索", "设置", "帮助", "关于"]

  /** `_is_button_text` of the earlier generation. */
  predicate IsButtonText(text: string) {
    var t := Strip(text);
    |t| < 2
    || WholeMatch(Lower(t), ExactButtons)
    || ContainsAnyKeyword(Lower(t), BroadKeywords)
    || FinalFilter.IsSymbolText(t)
    || FinalFilter.IsSingleCharText(t)
  }

  /** `_is_excluded_content` of the earlier generation: lowered, then stripped. */
  predicate IsExcludedContent(text: string) {
    text == [] || ContainsAnyKeyword(Strip(Lower(text)), ExcludedKeywords)
  }

  /** The test script's verdict: `is_button or is_excluded`. */
  predicate IsFiltered(text: string) {
    IsButtonText(text) || IsExcludedContent(text)
  }

  // ---------------------------------------------------------------------
  // What the keyword lists catch

  /** Every exclusion keyword is Chinese: lower case, without whitespace at its ends. */
  lemma ExcludedKeywordsProfile(k: string)
    requires k in ExcludedKeywords
    ensures IsLowercase(k) && |k| > 0 && !IsSpace(k[0]) && !IsSpace(k[|k| - 1]) && k[0] >= 128 as char
  {
  }

  /** An exclusion keyword anywhere in the lowered, stripped text excludes it. */
  lemma ExcludedByLoweredKeyword(text: string, k: string)
    requires k in ExcludedKeywords && Contains(Lower(Strip(text)), k)
    ensures IsExcludedContent(text)
  {
    StripLowerCommute(text);
    ExcludedKeywordsProfile(k);
    LowerOfLowercase(k);
  }

  /**
   * An exclusion keyword anywhere in the raw text excludes it: neither
   * lowering nor stripping can remove an occurrence.
   */
  lemma ExcludedByKeyword(text: string, k: string)
    requires k in ExcludedKeywords && Contains(text, k)
    ensures IsExcludedContent(text)
  {
    ExcludedKeywordsProfile(k);
    LowerOfLowercase(k);
    LowerKeepsOccurrence(text, k);
    StripKeepsOccurrence(Lower(text), k);
  }

  lemma BroadKeywordsProfile(k: string)
    requires k in BroadKeywords
    ensures IsLowercase(k) && |k| > 0 && !IsSpace(k[0]) && !IsSpace(k[|k| - 1])
  {
    if k in BroadHanKeywords {
      BroadHanKeywordsProfile(k);
    } else {
      BroadLatinKeywordsProfile(k);
    }
  }

  lemma BroadHanKeywordsProfile(k: string)
    requires k in BroadHanKeywords
    ensures IsLowercase(k) && |k| == 2 && !IsSpace(k[0]) && !IsSpace(k[1])
  {
  }

  lemma BroadLatinKeywordsProfile(k: string)
    requires k in BroadLatinKeywords
    ensures IsLowercase(k) && |k| >= 2 && 'a' <= k[0] <= 'z' && 'a' <= k[|k| - 1] <= 'z'
  {
  }

  /** A broad keyword anywhere in the raw text makes it a button. */
  lemma ButtonByKeyword(text: string, k: string)
    requires k in BroadKeywords && Contains(Lower(text), k)
    ensures IsButtonText(text)
  {
    BroadKeywordsProfile(k);
    LowerOfLowercase(k);
    StripKeepsOccurrence(Lower(text), k);
    StripLowerCommute(text);
  }

  /** The English buttons match whatever the case of the text. */
  lemma EnglishButtonAnyCase(text: string, w: string)
    requires Phrase(w) in EnglishButtons && Lower(Strip(text)) == w
    ensures IsButtonText(text)
  {
    assert Phrase(w) in ExactButtons;
    PhraseWholeMatch(w, ExactButtons);
  }

  lemma EnglishButtonUnstripped(text: string, w: string)
    requires Phrase(w) in EnglishButtons && |text| > 0 && !IsSpace(text[0]) && !IsSpace(text[|text| - 1])
    requires Lower(text) == w
    ensures IsButtonText(text)
  {
    StripUnchanged(text);
    EnglishButtonAnyCase(text, w);
  }

  /** Digits alone are a button, whatever their number: `1` and `123` both are. */
  lemma DigitsAreButtons(text: string)
    requires |text| > 0 && AllDigits(text)
    ensures IsButtonText(text)
  {
    assert IsDigit(text[0]) && IsDigit(text[|text| - 1]);
    StripUnchanged(text);
  }

  // ---------------------------------------------------------------------
  // What the filter lets through

  /** A character that starts none of the keywords of either list and is no latin letter. */
  predicate EarlyTitleChar(c: char) {
    !IsUpper(c) && !('a' <= c <= 'z')
    && c != '回' && c != '编' && c != '删' && c != '举' && c != '分' && c != '点' && c != '收'
    && c != '提' && c != '确' && c != '取' && c != '关' && c != '展'
    && c != '发' && c != '登' && c != '注' && c != '排' && c != '筛' && c != '页' && c != '菜'
    && c != '导' && c != '搜' && c != '设' && c != '帮'
  }

  /** Text made of `EarlyTitleChar`s holds no broad keyword. */
  lemma NoBroadKeyword(s: string)
    requires forall i :: 0 <= i < |s| ==> EarlyTitleChar(s[i])
    ensures !ContainsAnyKeyword(s, BroadKeywords)
  {
    forall k | k in BroadKeywords ensures !Contains(s, Lower(k)) {
      BroadKeywordsProfile(k);
      LowerOfLowercase(k);
      assert !EarlyTitleChar(k[0]);
      AbsentChar(s, k, 0);
    }
  }

  /** Text made of `EarlyTitleChar`s holds no exclusion keyword. */
  lemma NoExcludedKeyword(s: string)
    requires forall i :: 0 <= i < |s| ==> EarlyTitleChar(s[i])
    ensures !ContainsAnyKeyword(s, ExcludedKeywords)
  {
    forall k | k in ExcludedKeywords ensures !Contains(s, Lower(k)) {
      ExcludedKeywordsProfile(k);
      LowerOfLowercase(k);
      assert !EarlyTitleChar(k[0]);
      AbsentChar(s, k, 0);
    }
  }

  /** The English buttons start with latin letters. */
  lemma EnglishButtonsProfile(t: Token, c: char)
    requires t in EnglishButtons
    ensures CanStartWith(t, c) ==> c < 128 as char
  {
  }

  /** Text whose first character is not ASCII matches no English button. */
  lemma NoEnglishButton(s: string)
    requires |s| > 0 && s[0] >= 128 as char
    ensures !WholeMatch(s, EnglishButtons)
  {
    forall t | t in EnglishButtons ensures !CanStartWith(t, s[0]) {
      EnglishButtonsProfile(t, s[0]);
    }
    NoMatchWithoutStart(s, EnglishButtons);
  }

  /**
   * A Chinese text of two or more characters, without whitespace at its ends,
   * that matches no shared exact button and holds no character a keyword
   * starts with, passes the earlier filter.
   */
  lemma EarlyHanTextPasses(s: string)
    requires |s| >= 2 && !IsSpace(s[0]) && !IsSpace(s[|s| - 1]) && s[0] >= 128 as char
    requires forall i :: 0 <= i < |s| ==> EarlyTitleChar(s[i])
    requires !WholeMatch(s, FinalFilter.ExactButtons)
    ensures !IsFiltered(s)
  {
    StripUnchanged(s);
    LowerOfLowercase(s);
    StripLowerCommute(s);
    NoEnglishButton(s);
    WholeMatchAppend(s, FinalFilter.ExactButtons, EnglishButtons);
    NoBroadKeyword(s);
    NoExcludedKeyword(s);
    FinalFilter.SingleCharRuleUnreachable(s);
    assert !FinalFilter.IsSymbolChar(s[0]);
  }

  // ---------------------------------------------------------------------
  // The cases of the script's own table

  /** `POST` and `Login` are buttons although written in capitals. */
  lemma CapitalPostIsButton(text: string)
    requires text == "POST"
    ensures IsButtonText(text)
  {
    assert Lower(text) == "post";
    EnglishButtonUnstripped(text, "post");
  }

  lemma CapitalLoginIsButton(text: string)
    requires text == "Login"
    ensures IsButtonText(text)
  {
    LowerOneCapital([], 'L', "ogin");
    assert text == [] + ['L'] + "ogin";
    EnglishButtonUnstripped(text, "login");
  }

  /** `排序方式：` is excluded for holding `排序`. */
  lemma SortControlExcluded(text: string)
    requires text == "排序方式："
    ensures IsFiltered(text)
  {
    assert MatchesAt(text, "排序", 0);
    ExcludedByKeyword(text, "排序");
  }

  /** `论坛文章`, the page title, passes, as the table expects. */
  lemma ForumArticlesPassesEarly(text: string)
    requires text == "论坛文章"
    ensures !IsFiltered(text)
  {
    FinalFilter.NoExactButton(text);
    EarlyHanTextPasses(text);
  }

  /**
   * Four titles the table expects to pass are filtered: `学校生活分享` holds
   * the button keyword `分享`, the others hold `关于` or `发帖`.
   */
  lemma SchoolLifeSharingFiltered(text: string)
    requires text == "学校生活分享"
    ensures IsFiltered(text)
  {
    LowerOfLowercase(text);
    assert MatchesAt(text, "分享", 4);
    ButtonByKeyword(text, "分享");
  }

  lemma CourseChoiceAdviceFiltered(text: string)
    requires text == "关于课程选择的建议"
    ensures IsFiltered(text)
  {
    assert MatchesAt(text, "关于", 0);
    ExcludedByKeyword(text, "关于");
  }

  lemma PostingRulesDiscussionFiltered(text: string)
    requires text == "关于发帖规则的讨论"
    ensures IsFiltered(text)
  {
    assert MatchesAt(text, "关于", 0);
    ExcludedByKeyword(text, "关于");
  }

  lemma HowToPostFiltered(text: string)
    requires text == "如何在论坛发帖？"
    ensures IsFiltered(text)
  {
    assert MatchesAt(text, "发帖", 5);
    ExcludedByKeyword(text, "发帖");
  }
}
