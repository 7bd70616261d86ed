/**
 * The final generation of the page-chrome classifier: the predicates that
 * decide whether a scraped text is a forum post title or a piece of the page
 * around it (a button, a pagination label, a menu entry), and the checks
 * for a script-rendered page and for a post container without real content.
 *
 * Case-insensitive regex searches (`re.I`) are modelled as searches in the
 * lowered text; every pattern is written in lower case already.
 */
module FinalFilter {
  import opened Text
  import opened Patterns
  import opened Wrappers

  // ---------------------------------------------------------------------
  // Single-page application detection

  /** Markers of a script-rendered page, as written (one of them in upper case). */
  const SpaIndicators: seq<string> :=
    ["nuxt", "vue", "react", "angular", "__NUXT_DATA__", "data-nuxt-", "ng-app", "reactroot"]

  /** `_is_spa_application`: the lowered page holds one of the markers. */
  predicate IsSpaApplication(html: string) {
    exists k :: k in SpaIndicators && Contains(Lower(html), k)
  }

  /** Lowered text holds no upper-case letter. */
  lemma LowerHasNoUpper(s: string, c: char)
    requires IsUpper(c)
    ensures c !in Lower(s)
  {
    forall i | 0 <= i < |s| ensures Lower(s)[i] != c {
    }
  }

  /** The upper-case marker `__NUXT_DATA__` can never occur in the lowered page. */
  lemma NuxtDataMarkerNeverMatches(html: string)
    ensures !Contains(Lower(html), "__NUXT_DATA__")
  {
    LowerHasNoUpper(html, 'N');
    AbsentChar(Lower(html), "__NUXT_DATA__", 2);
  }

  /**
   * Only five markers decide: `__NUXT_DATA__` never matches, and
   * `data-nuxt-` and `reactroot` hold `nuxt` and `react`.
   */
  lemma SpaIndicatorsReduce(html: string)
    ensures IsSpaApplication(html) <==>
      (Contains(Lower(html), "nuxt") || Contains(Lower(html), "vue") || Contains(Lower(html), "react")
       || Contains(Lower(html), "angular") || Contains(Lower(html), "ng-app"))
  {
    var s := Lower(html);
    NuxtDataMarkerNeverMatches(html);
    if Contains(s, "data-nuxt-") {
      assert MatchesAt("data-nuxt-", "nuxt", 5);
      ContainsTransitive(s, "data-nuxt-", "nuxt");
    }
    if Contains(s, "reactroot") {
      assert MatchesAt("reactroot", "react", 0);
      ContainsTransitive(s, "reactroot", "react");
    }
    if Contains(s, "nuxt") || Contains(s, "vue") || Contains(s, "react") || Contains(s, "angular") || Contains(s, "ng-app") {
      assert "nuxt" in SpaIndicators && "vue" in SpaIndicators && "react" in SpaIndicators;
      assert "angular" in SpaIndicators && "ng-app" in SpaIndicators;
    }
  }

  // ---------------------------------------------------------------------
  // Navigation-only container text

  /** `上一页|下一页|首页|末页|第\s*\d+\s*页|共\s*\d+\s*页|页码|分页` */
  const PageNavigation: seq<Token> :=
    [Phrase("上一页"), Phrase("下一页"), Phrase("首页"), Phrase("末页"),
     Counted('第'), Counted('共'), Phrase("页码"), Phrase("分页")]

  /** `发帖|我要发帖|新建|添加|创建|登录|注册|搜索|筛选|排序` */
  const PostingActions: seq<Token> :=
    [Phrase("发帖"), Phrase("我要发帖"), Phrase("新建"), Phrase("添加"), Phrase("创建"),
     Phrase("登录"), Phrase("注册"), Phrase("搜索"), Phrase("筛选"), Phrase("排序")]

  /** `加载中|loading|暂无数据|没有更多|到底了` */
  const LoadingStates: seq<Token> :=
    [Phrase("加载中"), Phrase("loading"), Phrase("暂无数据"), Phrase("没有更多"), Phrase("到底了")]

  /**
   * `_is_only_navigation_content`: the raw text (not its whitespace-free
   * copy, which the code computes and never uses) is one or more phrases
   * of a single group.
   */
  predicate IsOnlyNavigationContent(text: string) {
    var s := Lower(text);
    RepeatedMatch(s, PageNavigation) || RepeatedMatch(s, PostingActions) || RepeatedMatch(s, LoadingStates)
  }

  /** Every piece of `ws` is a phrase of the one group `alts`. */
  ghost predicate AllPiecesOf(ws: seq<string>, alts: seq<Token>) {
    forall k :: 0 <= k < |ws| ==> IsPiece(ws[k], alts)
  }

  /** The lowered text is one or more pieces of a single navigation group. */
  ghost predicate NavigationPieces(s: string, ws: seq<string>) {
    |ws| > 0 && Concat(ws) == s
    && (AllPiecesOf(ws, PageNavigation) || AllPiecesOf(ws, PostingActions) || AllPiecesOf(ws, LoadingStates))
  }

  /**
   * A text whose lowered form is one or more phrases of a single group, with
   * or without a final newline, is navigation only.
   */
  lemma NavigationPiecesAreOnlyNavigation(text: string, ws: seq<string>)
    requires NavigationPieces(Lower(text), ws)
          || (|Lower(text)| > 0 && Lower(text)[|Lower(text)| - 1] == '\n'
              && NavigationPieces(Lower(text)[..|Lower(text)| - 1], ws))
    ensures IsOnlyNavigationContent(text)
  {
    var s := Lower(text);
    var e := if NavigationPieces(s, ws) then |s| else |s| - 1;
    assert s[0..e] == Concat(ws);
    if AllPiecesOf(ws, PageNavigation) {
      PiecesCover(s, 0, e, ws, PageNavigation);
    } else if AllPiecesOf(ws, PostingActions) {
      PiecesCover(s, 0, e, ws, PostingActions);
    } else {
      PiecesCover(s, 0, e, ws, LoadingStates);
    }
  }

  /**
   * Conversely, navigation-only text is, once lowered and apart from one
   * final newline, one or more phrases of a single group.
   */
  lemma OnlyNavigationIsPieces(text: string) returns (ws: seq<string>)
    requires IsOnlyNavigationContent(text)
    ensures NavigationPieces(Lower(text), ws)
         || (|Lower(text)| > 0 && Lower(text)[|Lower(text)| - 1] == '\n'
             && NavigationPieces(Lower(text)[..|Lower(text)| - 1], ws))
  {
    var s := Lower(text);
    if CoversTo(s, 0, |s|, PageNavigation) || CoversTo(s, 0, |s|, PostingActions)
       || CoversTo(s, 0, |s|, LoadingStates)
    {
      ws := GroupPieces(s, |s|);
      assert s[..|s|] == s;
    } else {
      ws := GroupPieces(s, |s| - 1);
    }
  }

  /** A prefix covered by one navigation group splits into pieces of that group. */
  lemma GroupPieces(s: string, e: nat) returns (ws: seq<string>)
    requires e <= |s|
    requires CoversTo(s, 0, e, PageNavigation) || CoversTo(s, 0, e, PostingActions)
             || CoversTo(s, 0, e, LoadingStates)
    ensures NavigationPieces(s[..e], ws)
  {
    assert s[0..e] == s[..e];
    if CoversTo(s, 0, e, PageNavigation) {
      ws := CoverPieces(s, 0, e, PageNavigation);
    } else if CoversTo(s, 0, e, PostingActions) {
      ws := CoverPieces(s, 0, e, PostingActions);
    } else {
      ws := CoverPieces(s, 0, e, LoadingStates);
    }
  }

  /** A container whose text makes the list non-empty. */
  predicate IsMeaningfulContainer(text: string) {
    text != [] && |Strip(text)| > 10 && !IsOnlyNavigationContent(text)
  }

  /**
   * `_is_posts_container_empty`: no container text has more than ten
   * characters after stripping without being navigation only.  (The code
   * scans the texts and stops at the first such one; the scan has no other
   * effect, so the order does not matter.)
   */
  predicate IsPostsContainerEmpty(texts: seq<string>) {
    forall i :: 0 <= i < |texts| ==> !IsMeaningfulContainer(texts[i])
  }

  /** Texts of at most ten characters after stripping never count, whatever they say. */
  lemma ShortContainersAreEmpty(texts: seq<string>)
    requires forall i :: 0 <= i < |texts| ==> |Strip(texts[i])| <= 10
    ensures IsPostsContainerEmpty(texts)
  {
  }

  /** Text of at most ten characters after stripping never makes a container count. */
  lemma ShortNotMeaningful(text: string)
    requires |Strip(text)| <= 10
    ensures !IsMeaningfulContainer(text)
  {
  }

  /** Blank text never makes a container count. */
  lemma BlankNotMeaningful(text: string)
    requires AllSpace(text)
    ensures !IsMeaningfulContainer(text)
  {
    StripEmpty(text);
  }

  // ---------------------------------------------------------------------
  // Button text

  /** `^我要发帖$`, `^发布帖子$`, ...: posting buttons. */
  const PostingButtons: seq<Token> :=
    [Phrase("我要发帖"), Phrase("发布帖子"), Phrase("新建帖子"), Phrase("创建帖子"), Phrase("写帖子"), Phrase("发帖")]

  /** `^登录$`, ...: account buttons. */
  const AccountButtons: seq<Token> :=
    [Phrase("登录"), Phrase("注册"), Phrase("退出"), Phrase("登出"), Phrase("注销")]

  /** `^首页$`, ...: navigation buttons. */
  const NavigationButtons: seq<Token> :=
    [Phrase("首页"), Phrase("主页"), Phrase("返回"), Phrase("上一页"), Phrase("下一页"), Phrase("末页"), Phrase("尾页")]

  /** `^第\s*\d+\s*页$`, `^共\s*\d+\s*页$`, `^页码\s*\d+$`: pagination labels. */
  const PagingButtons: seq<Token> := [Counted('第'), Counted('共'), PageCode]

  /** `^搜索$`, ...: function buttons. */
  const FunctionButtons: seq<Token> :=
    [Phrase("搜索"), Phrase("查找"), Phrase("筛选"), Phrase("过滤"), Phrase("排序"), Phrase("切换"),
     Phrase("展开"), Phrase("收起"), Phrase("更多"), Phrase("详情"), Phrase("查看")]

  /** `^提交$`, ...: form buttons. */
  const FormButtons: seq<Token> :=
    [Phrase("提交"), Phrase("确定"), Phrase("取消"), Phrase("重置"), Phrase("保存"), Phrase("删除"),
     Phrase("编辑"), Phrase("修改"), Phrase("添加"), Phrase("新增")]

  /** The exact button patterns, in the order the code tries them. */
  const ExactButtons: seq<Token> :=
    PostingButtons + AccountButtons + NavigationButtons + PagingButtons + FunctionButtons + FormButtons

  /** The conservative substring keywords: the Chinese ones, then the English ones. */
  const HanButtonKeywords: seq<string> := ["回复", "举报", "点赞", "收藏", "确定", "取消", "关闭"]

  const LatinButtonKeywords: seq<string> :=
    ["reply", "edit", "delete", "report", "like", "save", "submit", "ok", "cancel", "close"]

  const ConservativeKeywords: seq<string> := HanButtonKeywords + LatinButtonKeywords

  /** `[\d\s\-_\+\.]` */
  predicate IsSymbolChar(c: char) {
    IsDigit(c) || IsSpace(c) || c == '-' || c == '_' || c == '+' || c == '.'
  }

  /** `^[\d\s\-_\+\.]+$` (the class holds `\n`, so a final newline changes nothing). */
  predicate IsSymbolText(s: string) {
    |s| > 0 && forall i :: 0 <= i < |s| ==> IsSymbolChar(s[i])
  }

  /** `^.$`: one character other than a newline, optionally followed by a final newline. */
  predicate IsSingleCharText(s: string) {
    |s| > 0 && s[0] != '\n' && AtEnd(s, 1)
  }

  /** `_is_button_text` of the final generation. */
  predicate IsButtonText(text: string) {
    var t := Strip(text);
    |t| < 2
    || WholeMatch(Lower(t), ExactButtons)
    || ContainsAnyKeyword(Lower(t), ConservativeKeywords)
    || IsSymbolText(t)
    || IsSingleCharText(t)
  }

  /**
   * The `^.$` alternative never decides anything: text that reaches it has
   * two or more characters after stripping, and stripped text cannot end in
   * a newline.
   */
  lemma SingleCharRuleUnreachable(text: string)
    ensures IsSingleCharText(Strip(text)) ==> |Strip(text)| < 2
  {
  }

  /** The button test without its dead alternative. */
  lemma ButtonTextCases(text: string)
    ensures IsButtonText(text) <==>
      (var t := Strip(text);
       |t| < 2 || WholeMatch(Lower(t), ExactButtons) || ContainsAnyKeyword(Lower(t), ConservativeKeywords) || IsSymbolText(t))
  {
    SingleCharRuleUnreachable(text);
  }

  // ---------------------------------------------------------------------
  // Excluded content

  /** `^(首页|主页|上一页|下一页|末页|尾页)$` */
  const NavigationWords: seq<Token> :=
    [Phrase("首页"), Phrase("主页"), Phrase("上一页"), Phrase("下一页"), Phrase("末页"), Phrase("尾页")]

  /** `^(第\s*\d+\s*页|共\s*\d+\s*页|页码).*$` */
  const PaginationPrefixes: seq<Token> := [Counted('第'), Counted('共'), Phrase("页码")]

  /** `^(登录|注册|搜索|筛选|排序|设置|帮助|关于我们|联系我们)$` */
  const FunctionWords: seq<Token> :=
    [Phrase("登录"), Phrase("注册"), Phrase("搜索"), Phrase("筛选"), Phrase("排序"),
     Phrase("设置"), Phrase("帮助"), Phrase("关于我们"), Phrase("联系我们")]

  /** `^(排序方式|筛选条件|搜索结果).*$` */
  const ControlPrefixes: seq<Token> := [Phrase("排序方式"), Phrase("筛选条件"), Phrase("搜索结果")]

  /** `^(菜单|导航|面包屑).*$` */
  const MenuPrefixes: seq<Token> := [Phrase("菜单"), Phrase("导航"), Phrase("面包屑")]

  /** `_is_excluded_content` of the final generation. */
  predicate IsExcludedContent(text: string) {
    text == []
    || (var s := Lower(Strip(text));
        WholeMatch(s, NavigationWords) || PrefixMatch(s, PaginationPrefixes) || WholeMatch(s, FunctionWords)
        || PrefixMatch(s, ControlPrefixes) || PrefixMatch(s, MenuPrefixes))
  }

  // ---------------------------------------------------------------------
  // The combined verdict

  /** The reason `should_filter_content` reports, in order of precedence. */
  datatype Reason = EmptyContent | ButtonText | ExcludedContent | NormalContent

  /** The label the script prints for each reason. */
  function Label(r: Reason): string {
    match r
    case EmptyContent => "空内容"
    case ButtonText => "按钮文本"
    case ExcludedContent => "排除内容"
    case NormalContent => "正常内容"
  }

  datatype Verdict = Verdict(filtered: bool, reason: Reason)

  /** `should_filter_content`: empty text first, then buttons, then excluded content. */
  function ShouldFilterContent(text: string): (v: Verdict)
    ensures v.filtered <==> v.reason != NormalContent
  {
    if text == [] || Strip(text) == [] then Verdict(true, EmptyContent)
    else if IsButtonText(text) then Verdict(true, ButtonText)
    else if IsExcludedContent(text) then Verdict(true, ExcludedContent)
    else Verdict(false, NormalContent)
  }

  /** The reason is "empty" exactly for text that is all whitespace. */
  lemma EmptyReasonIffBlank(text: string)
    ensures ShouldFilterContent(text).reason == EmptyContent <==> AllSpace(text)
  {
    StripEmpty(text);
  }

  /** A text is filtered exactly when it is button text or excluded content. */
  lemma FilteredIffChrome(text: string)
    ensures ShouldFilterContent(text).filtered <==> IsButtonText(text) || IsExcludedContent(text)
  {
    StripEmpty(text);
  }

  /** Whitespace-only text is reported as empty, never as a button, although it is one too. */
  lemma BlankTextReportedEmpty(text: string)
    requires AllSpace(text)
    ensures ShouldFilterContent(text) == Verdict(true, EmptyContent) && IsButtonText(text)
  {
    StripEmpty(text);
  }

  /** The reason names the first test that holds. */
  lemma ReasonPrecedence(text: string)
    ensures ShouldFilterContent(text).reason == ButtonText <==> !AllSpace(text) && IsButtonText(text)
    ensures ShouldFilterContent(text).reason == ExcludedContent <==>
      !AllSpace(text) && !IsButtonText(text) && IsExcludedContent(text)
  {
    StripEmpty(text);
  }

  // ---------------------------------------------------------------------
  // What a post title must avoid to pass

  /** First characters of the whole-text patterns (exact buttons, navigation and function words). */
  predicate IsWholeStart(c: char) {
    c == '我' || c == '发' || c == '新' || c == '创' || c == '写' || c == '登' || c == '注' || c == '退' || c == '首'
    || c == '主' || c == '返' || c == '上' || c == '下' || c == '末' || c == '尾' || c == '第' || c == '共' || c == '页'
    || c == '搜' || c == '查' || c == '筛' || c == '过' || c == '排' || c == '切' || c == '展' || c == '收' || c == '更'
    || c == '详' || c == '提' || c == '确' || c == '取' || c == '重' || c == '保' || c == '删' || c == '编' || c == '修'
    || c == '添' || c == '设' || c == '帮' || c == '关' || c == '联'
  }

  /** First characters of the prefix patterns (pagination, sort and filter controls, menus). */
  predicate IsPrefixStart(c: char) {
    c == '第' || c == '共' || c == '页' || c == '排' || c == '筛' || c == '搜' || c == '菜' || c == '导' || c == '面'
  }

  /** Every literal exact button is short and starts with a character `IsWholeStart` accepts. */
  lemma ButtonPhrasesProfile(t: Token, c: char)
    requires t in PostingButtons || t in AccountButtons || t in NavigationButtons
    ensures t.Phrase? && |t.text| <= 4
    ensures CanStartWith(t, c) ==> IsWholeStart(c)
  {
  }

  lemma MoreButtonPhrasesProfile(t: Token, c: char)
    requires t in FunctionButtons || t in FormButtons
    ensures t.Phrase? && |t.text| <= 4
    ensures CanStartWith(t, c) ==> IsWholeStart(c)
  {
  }

  /** The pagination labels start with a character `IsPrefixStart` accepts. */
  lemma PagingButtonsProfile(t: Token, c: char)
    requires t in PagingButtons
    ensures !t.Phrase?
    ensures CanStartWith(t, c) ==> IsPagingStart(c) && IsPrefixStart(c) && IsWholeStart(c)
  {
      }

  /** Every exact button alternative is a short phrase or a pagination label. */
  lemma ExactButtonsProfile(t: Token, c: char)
    requires t in ExactButtons
    ensures t.Phrase? ==> |t.text| <= 4
    ensures CanStartWith(t, c) ==> IsWholeStart(c)
    ensures !t.Phrase? ==> IsPagingStart(c) || !CanStartWith(t, c)
  {
    if t in PagingButtons {
      PagingButtonsProfile(t, c);
    } else if t in FunctionButtons || t in FormButtons {
      MoreButtonPhrasesProfile(t, c);
    } else {
      ButtonPhrasesProfile(t, c);
    }
  }

  lemma NavigationWordsProfile(t: Token, c: char)
    requires t in NavigationWords
    ensures t.Phrase? && |t.text| <= 3
    ensures CanStartWith(t, c) ==> IsWholeStart(c)
  {
  }

  lemma FunctionWordsProfile(t: Token, c: char)
    requires t in FunctionWords
    ensures t.Phrase? && |t.text| <= 4
    ensures CanStartWith(t, c) ==> IsWholeStart(c)
  {
  }

  lemma PrefixPatternsProfile(t: Token, c: char)
    requires t in PaginationPrefixes || t in ControlPrefixes || t in MenuPrefixes
    ensures CanStartWith(t, c) ==> IsPrefixStart(c)
  {
  }

  /**
   * `^(...)$` cannot match text that does not end in whitespace and is
   * longer than every literal alternative that starts with its first character.
   */
  lemma NoWholeMatchOfLongText(s: string, alts: seq<Token>)
    requires |s| > 0 && !IsSpace(s[|s| - 1])
    requires forall t :: t in alts ==> !CanStartWith(t, s[0]) || (t.Phrase? && |t.text| < |s|)
    ensures !WholeMatch(s, alts)
  {
    forall t | t in alts && TokenEnd(s, 0, t).Some? ensures !AtEnd(s, TokenEnd(s, 0, t).value) {
      TokenStart(s, 0, t);
    }
  }

  /** The characters a pagination label starts with. */
  predicate IsPagingStart(c: char) {
    c == '第' || c == '共' || c == '页'
  }

  /**
   * Text of two or more characters, not ending in whitespace, whose first
   * character starts no pagination label, and which either starts no
   * whole-text pattern or is longer than four characters, is no exact button.
   */
  lemma NoExactButton(s: string)
    requires |s| >= 2 && !IsSpace(s[|s| - 1]) && !IsPagingStart(s[0])
    requires !IsWholeStart(s[0]) || |s| > 4
    ensures !WholeMatch(s, ExactButtons)
  {
    forall t | t in ExactButtons ensures !CanStartWith(t, s[0]) || (t.Phrase? && |t.text| < |s|) {
      ExactButtonsProfile(t, s[0]);
    }
    NoWholeMatchOfLongText(s, ExactButtons);
  }

  /** The same text is no navigation or function word. */
  lemma NoWholeWord(s: string)
    requires |s| >= 2 && !IsSpace(s[|s| - 1])
    requires !IsWholeStart(s[0]) || |s| > 4
    ensures !WholeMatch(s, NavigationWords) && !WholeMatch(s, FunctionWords)
  {
    NoNavigationWord(s);
    NoFunctionWord(s);
  }

  lemma NoNavigationWord(s: string)
    requires |s| >= 2 && !IsSpace(s[|s| - 1])
    requires !IsWholeStart(s[0]) || |s| > 4
    ensures !WholeMatch(s, NavigationWords)
  {
    forall t | t in NavigationWords ensures !CanStartWith(t, s[0]) || (t.Phrase? && |t.text| < |s|) {
      NavigationWordsProfile(t, s[0]);
    }
    NoWholeMatchOfLongText(s, NavigationWords);
  }

  lemma NoFunctionWord(s: string)
    requires |s| >= 2 && !IsSpace(s[|s| - 1])
    requires !IsWholeStart(s[0]) || |s| > 4
    ensures !WholeMatch(s, FunctionWords)
  {
    forall t | t in FunctionWords ensures !CanStartWith(t, s[0]) || (t.Phrase? && |t.text| < |s|) {
      FunctionWordsProfile(t, s[0]);
    }
    NoWholeMatchOfLongText(s, FunctionWords);
  }

  /** Text whose first character starts no prefix pattern is matched by none of them. */
  lemma NoPrefixChromePattern(s: string)
    requires |s| > 0 && !IsPrefixStart(s[0])
    ensures !PrefixMatch(s, PaginationPrefixes) && !PrefixMatch(s, ControlPrefixes) && !PrefixMatch(s, MenuPrefixes)
  {
    forall t | t in PaginationPrefixes || t in ControlPrefixes || t in MenuPrefixes
      ensures !CanStartWith(t, s[0])
    {
      PrefixPatternsProfile(t, s[0]);
    }
    NoMatchWithoutStart(s, PaginationPrefixes);
    NoMatchWithoutStart(s, ControlPrefixes);
    NoMatchWithoutStart(s, MenuPrefixes);
  }

  /** A character that cannot belong to any conservative keyword's blocking position. */
  predicate HanTitleChar(c: char) {
    !IsUpper(c) && !('a' <= c <= 'z')
    && c != '回' && c != '举' && c != '点' && c != '收' && c != '确' && c != '取' && c != '闭'
  }

  /** Each keyword is lower case, and each Chinese one has one of its first two characters outside `HanTitleChar`. */
  lemma ConservativeKeywordsProfile(k: string)
    requires k in ConservativeKeywords
    ensures IsLowercase(k) && |k| >= 2 && (!HanTitleChar(k[0]) || !HanTitleChar(k[1]))
  {
    if k in LatinButtonKeywords {
      LatinKeywordsProfile(k);
    }
  }

  lemma LatinKeywordsProfile(k: string)
    requires k in LatinButtonKeywords
    ensures IsLowercase(k) && |k| >= 2 && 'a' <= k[0] <= 'z'
  {
  }

  /** Text made of `HanTitleChar`s holds no conservative keyword. */
  lemma NoKeywordInHanText(s: string)
    requires forall i :: 0 <= i < |s| ==> HanTitleChar(s[i])
    ensures !ContainsAnyKeyword(s, ConservativeKeywords)
  {
    forall k | k in ConservativeKeywords ensures !Contains(s, Lower(k)) {
      ConservativeKeywordsProfile(k);
      LowerOfLowercase(k);
      var j := if HanTitleChar(k[0]) then 1 else 0;
      assert k[j] !in s;
      AbsentChar(s, k, j);
    }
  }

  /** Plain ASCII text holds none of the Chinese keywords. */
  lemma NoHanKeywordInAscii(s: string)
    requires IsAscii(s)
    ensures !ContainsAnyKeyword(s, HanButtonKeywords)
  {
    forall k | k in HanButtonKeywords ensures !Contains(s, Lower(k)) {
      assert IsLowercase(k) && k[0] >= 128 as char;
      LowerOfLowercase(k);
      AbsentChar(s, k, 0);
    }
  }

  /**
   * Text of two or more characters without whitespace at its ends, made of
   * characters that block every keyword and starting with no digit or
   * symbol, is no button unless it is an exact one.
   */
  lemma HanTextNotButton(s: string)
    requires |s| >= 2 && !IsSpace(s[0]) && !IsSpace(s[|s| - 1]) && !IsSymbolChar(s[0])
    requires forall i :: 0 <= i < |s| ==> HanTitleChar(s[i])
    requires !WholeMatch(s, ExactButtons)
    ensures !IsButtonText(s) && Lower(Strip(s)) == s
  {
    StripUnchanged(s);
    LowerOfLowercase(s);
    NoKeywordInHanText(s);
    SingleCharRuleUnreachable(s);
    assert !IsSymbolText(s);
  }

  /**
   * Such a text whose first character starts no pagination label, and which
   * either starts no whole-text pattern or is longer than four characters,
   * is no button at all.
   */
  lemma HanTitleNotButton(s: string)
    requires |s| >= 2 && !IsSpace(s[0]) && !IsSpace(s[|s| - 1]) && !IsSymbolChar(s[0])
    requires forall i :: 0 <= i < |s| ==> HanTitleChar(s[i])
    requires !IsPagingStart(s[0]) && (!IsWholeStart(s[0]) || |s| > 4)
    ensures !IsButtonText(s)
  {
    NoExactButton(s);
    HanTextNotButton(s);
  }

  /**
   * A title of two or more characters, free of the keywords' blocking
   * characters, that starts with a character no prefix pattern starts with,
   * and either no whole-text pattern starts with or is longer than four
   * characters, passes the filter.
   */
  lemma HanTitlePasses(s: string)
    requires |s| >= 2 && !IsSpace(s[0]) && !IsSpace(s[|s| - 1]) && !IsSymbolChar(s[0])
    requires forall i :: 0 <= i < |s| ==> HanTitleChar(s[i])
    requires !IsPrefixStart(s[0]) && (!IsWholeStart(s[0]) || |s| > 4)
    ensures ShouldFilterContent(s) == Verdict(false, NormalContent)
  {
    NoExactButton(s);
    HanTextNotButton(s);
    NoWholeWord(s);
    NoPrefixChromePattern(s);
  }

  /**
   * The real post titles of the final script pass, including the two that
   * hold the posting phrase `发帖`; so do the page title `论坛文章` and the
   * navigation link `课程`, which the script lists among the texts to filter.
   */
  lemma CourseChoiceAdviceTitlePasses(text: string)
    requires text == "关于课程选择的建议"
    ensures ShouldFilterContent(text) == Verdict(false, NormalContent)
  {
    HanTitlePasses(text);
  }

  lemma FreshmanGuideTitlePasses(text: string)
    requires text == "新生入学指南"
    ensures ShouldFilterContent(text) == Verdict(false, NormalContent)
  {
    HanTitlePasses(text);
  }

  lemma CampusLifeSharingTitlePasses(text: string)
    requires text == "学校生活分享"
    ensures ShouldFilterContent(text) == Verdict(false, NormalContent)
  {
    HanTitlePasses(text);
  }

  lemma StudyMethodDiscussionTitlePasses(text: string)
    requires text == "讨论：最好的学习方法"
    ensures ShouldFilterContent(text) == Verdict(false, NormalContent)
  {
    HanTitlePasses(text);
  }

  lemma RoommateSearchTitlePasses(text: string)
    requires text == "寻找室友"
    ensures ShouldFilterContent(text) == Verdict(false, NormalContent)
  {
    HanTitlePasses(text);
  }

  lemma CampusEventsTitlePasses(text: string)
    requires text == "校园活动推荐"
    ensures ShouldFilterContent(text) == Verdict(false, NormalContent)
  {
    HanTitlePasses(text);
  }

  lemma FinalExamNotesTitlePasses(text: string)
    requires text == "期末复习资料整理"
    ensures ShouldFilterContent(text) == Verdict(false, NormalContent)
  {
    HanTitlePasses(text);
  }

  lemma PostingRulesDiscussionTitlePasses(text: string)
    requires text == "关于发帖规则的讨论"
    ensures ShouldFilterContent(text) == Verdict(false, NormalContent)
  {
    HanTitlePasses(text);
  }

  lemma HowToPostTitlePasses(text: string)
    requires text == "如何在论坛发帖？"
    ensures ShouldFilterContent(text) == Verdict(false, NormalContent)
  {
    HanTitlePasses(text);
  }

  lemma ForumArticlesTitlePasses(text: string)
    requires text == "论坛文章"
    ensures ShouldFilterContent(text) == Verdict(false, NormalContent)
  {
    HanTitlePasses(text);
  }

  lemma CourseTitlePasses(text: string)
    requires text == "课程"
    ensures ShouldFilterContent(text) == Verdict(false, NormalContent)
  {
    HanTitlePasses(text);
  }

  /** Text is ASCII when every character is below 128. */
  predicate IsAscii(s: string) {
    forall i :: 0 <= i < |s| ==> s[i] < 128 as char
  }

  /**
   * A title of two or more characters whose lowered form starts with a
   * latin letter and holds no keyword passes the filter.
   */
  lemma LatinTitlePasses(text: string)
    requires |text| >= 2 && !IsSpace(text[0]) && !IsSpace(text[|text| - 1])
    requires 'a' <= Lower(text)[0] <= 'z'
    requires !ContainsAnyKeyword(Lower(text), ConservativeKeywords)
    ensures ShouldFilterContent(text) == Verdict(false, NormalContent)
  {
    StripUnchanged(text);
    LatinTextNotButton(text);
    LatinTextNotExcluded(text);
  }

  lemma LatinTextNotExcluded(text: string)
    requires |text| >= 2 && !IsSpace(text[0]) && !IsSpace(text[|text| - 1])
    requires 'a' <= Lower(text)[0] <= 'z'
    ensures !IsExcludedContent(text)
  {
    StripUnchanged(text);
    NoWholeWord(Lower(text));
    NoPrefixChromePattern(Lower(text));
  }

  lemma LatinTextNotButton(text: string)
    requires |text| >= 2 && !IsSpace(text[0]) && !IsSpace(text[|text| - 1])
    requires 'a' <= Lower(text)[0] <= 'z'
    requires !ContainsAnyKeyword(Lower(text), ConservativeKeywords)
    ensures !IsButtonText(text)
  {
    StripUnchanged(text);
    NoExactButton(Lower(text));
    SingleCharRuleUnreachable(text);
  }

  /** ASCII text holds a conservative keyword only if it holds an English one. */
  lemma AsciiKeywords(s: string)
    requires IsAscii(s)
    ensures ContainsAnyKeyword(s, ConservativeKeywords) <==> ContainsAnyKeyword(s, LatinButtonKeywords)
  {
    NoHanKeywordInAscii(s);
    ContainsAnyKeywordAppend(s, HanButtonKeywords, LatinButtonKeywords);
  }

  /** Lowered text that lacks `y`, `d`, `k`, `a`, `b`, `c` and the pair `re` holds no English keyword. */
  lemma NoLatinKeywordWithoutYDKABC(s: string)
    requires LacksPair(s, 'r', 'e')
    requires forall i :: 0 <= i < |s| ==> s[i] !in "ydkabc"
    ensures !ContainsAnyKeyword(s, LatinButtonKeywords)
  {
    forall k | k in LatinButtonKeywords ensures !Contains(s, Lower(k)) {
      LatinKeywordsProfile(k);
      LowerOfLowercase(k);
      if k == "report" {
        AbsentPair(s, k, 0);
      } else {
        var j := if k == "reply" then 4 else if k == "edit" then 1 else if k == "delete" then 0
          else if k == "like" then 2 else if k == "save" then 1 else if k == "submit" then 2
          else if k == "ok" then 1 else 0;
        assert k[j] in "ydkabc";
        AbsentChar(s, k, j);
      }
    }
  }

  /** Lowered text that lacks `e`, `k`, `v`, `b` and `c` holds no English keyword. */
  lemma NoLatinKeywordWithoutEKVBC(s: string)
    requires forall i :: 0 <= i < |s| ==> s[i] !in "ekvbc"
    ensures !ContainsAnyKeyword(s, LatinButtonKeywords)
  {
    forall k | k in LatinButtonKeywords ensures !Contains(s, Lower(k)) {
      LatinKeywordsProfile(k);
      LowerOfLowercase(k);
      var j := if k == "reply" || k == "report" || k == "delete" then 1 else if k == "edit" then 0
        else if k == "like" then 2 else if k == "save" then 2 else if k == "submit" then 2
        else if k == "ok" then 1 else 0;
      assert k[j] in "ekvbc";
      AbsentChar(s, k, j);
    }
  }

  /** Neither English title holds a keyword once lowered. */
  lemma ImproveEnglishHasNoKeyword(s: string)
    requires s == "how to improve english"
    ensures !ContainsAnyKeyword(s, ConservativeKeywords)
  {
    ImproveEnglishLetters(s);
    ImproveEnglishPairs(s);
    NoLatinKeywordWithoutYDKABC(s);
    AsciiKeywords(s);
  }

  lemma ImproveEnglishLetters(s: string)
    requires s == "how to improve english"
    ensures IsAscii(s) && forall i :: 0 <= i < |s| ==> s[i] !in "ydkabc"
  {
    forall i | 0 <= i < |s| ensures s[i] !in "ydkabc" && s[i] < 128 as char {
      if i < 11 {
      } else {
      }
    }
  }

  lemma ImproveEnglishPairs(s: string)
    requires s == "how to improve english"
    ensures LacksPair(s, 'r', 'e')
  {
    forall i | 0 <= i < |s| - 1 ensures s[i] != 'r' || s[i + 1] != 'e' {
      if i < 11 {
      } else {
      }
    }
  }

  lemma StudyGroupHasNoKeyword(s: string)
    requires s == "study group formation"
    ensures !ContainsAnyKeyword(s, ConservativeKeywords)
  {
    assert IsAscii(s);
    assert forall i :: 0 <= i < |s| ==> s[i] !in "ekvbc";
    NoLatinKeywordWithoutEKVBC(s);
    AsciiKeywords(s);
  }

  lemma ImproveEnglishTitlePasses(text: string)
    requires text == "How to improve English"
    ensures ShouldFilterContent(text) == Verdict(false, NormalContent)
  {
    assert Lower(text) == "how to improve english";
    ImproveEnglishHasNoKeyword(Lower(text));
    LatinTitlePasses(text);
  }

  lemma StudyGroupTitlePasses(text: string)
    requires text == "Study group formation"
    ensures ShouldFilterContent(text) == Verdict(false, NormalContent)
  {
    assert Lower(text) == "study group formation";
    StudyGroupHasNoKeyword(Lower(text));
    LatinTitlePasses(text);
  }

  // ---------------------------------------------------------------------
  // What the filter catches

  /** A text that is, as it stands, one of the literal exact buttons is filtered as a button. */
  lemma ExactPhraseIsButton(s: string)
    requires |s| > 0 && !IsSpace(s[0]) && !IsSpace(s[|s| - 1]) && IsLowercase(s)
    requires Phrase(s) in PostingButtons || Phrase(s) in AccountButtons || Phrase(s) in NavigationButtons
      || Phrase(s) in FunctionButtons || Phrase(s) in FormButtons
    ensures ShouldFilterContent(s) == Verdict(true, ButtonText)
  {
    InExactButtons(Phrase(s));
    ExactButtonText(s);
    assert !AllSpace(s) by {
      assert !IsSpace(s[0]);
    }
    ReasonPrecedence(s);
  }

  /** Each literal group is part of the exact button patterns. */
  lemma InExactButtons(t: Token)
    requires t in PostingButtons || t in AccountButtons || t in NavigationButtons || t in FunctionButtons || t in FormButtons
    ensures t in ExactButtons
  {
  }

  lemma ExactButtonText(s: string)
    requires |s| > 0 && !IsSpace(s[0]) && !IsSpace(s[|s| - 1]) && IsLowercase(s)
    requires Phrase(s) in ExactButtons
    ensures IsButtonText(s)
  {
    StripUnchanged(s);
    LowerOfLowercase(s);
    PhraseWholeMatch(s, ExactButtons);
  }

  /**
   * Text that, stripped and lowered, starts with a sort, filter, search,
   * menu, navigation or breadcrumb prefix and has no newline after it is excluded.
   */
  lemma ControlPrefixExcluded(text: string, p: string, rest: string)
    requires Phrase(p) in ControlPrefixes || Phrase(p) in MenuPrefixes
    requires Lower(Strip(text)) == p + rest && '\n' !in rest
    ensures IsExcludedContent(text)
  {
    if Phrase(p) in ControlPrefixes {
      PhrasePrefixMatch(p, rest, ControlPrefixes);
    } else {
      PhrasePrefixMatch(p, rest, MenuPrefixes);
    }
  }

  /**
   * Text that, stripped and lowered, starts with a page label such as
   * `第 3 页` or `共12页` and holds no newline is excluded.
   */
  lemma PaginationPrefixExcluded(text: string, lead: char, e: nat)
    requires lead == '第' || lead == '共'
    requires e <= |Lower(Strip(text))| && IsCountedPhrase(Lower(Strip(text))[..e], lead)
    requires '\n' !in Lower(Strip(text))
    ensures IsExcludedContent(text)
  {
    var s := Lower(Strip(text));
    assert s[0..e] == s[..e];
    CountedEndComplete(s, 0, lead, e);
    assert RestOfLine(s, e) by {
      forall j | 0 <= j < |s| - e ensures s[e..][j] != '\n' {
        assert s[e..][j] == s[e + j];
        assert s[e + j] in s;
      }
    }
    assert Counted(lead) in PaginationPrefixes;
    assert PrefixMatch(s, PaginationPrefixes);
  }

  /** The posting, paging, home, login and register buttons of the script are filtered as buttons. */
  lemma PostingButtonFiltered(text: string)
    requires text == "我要发帖"
    ensures ShouldFilterContent(text) == Verdict(true, ButtonText)
  {
    assert Phrase(text) in PostingButtons;
    ExactPhraseIsButton(text);
  }

  lemma PreviousPageButtonFiltered(text: string)
    requires text == "上一页"
    ensures ShouldFilterContent(text) == Verdict(true, ButtonText)
  {
    assert Phrase(text) in NavigationButtons;
    ExactPhraseIsButton(text);
  }

  lemma NextPageButtonFiltered(text: string)
    requires text == "下一页"
    ensures ShouldFilterContent(text) == Verdict(true, ButtonText)
  {
    assert Phrase(text) in NavigationButtons;
    ExactPhraseIsButton(text);
  }

  lemma HomeButtonFiltered(text: string)
    requires text == "首页"
    ensures ShouldFilterContent(text) == Verdict(true, ButtonText)
  {
    assert Phrase(text) in NavigationButtons;
    ExactPhraseIsButton(text);
  }

  lemma LoginButtonFiltered(text: string)
    requires text == "登录"
    ensures ShouldFilterContent(text) == Verdict(true, ButtonText)
  {
    assert Phrase(text) in AccountButtons;
    ExactPhraseIsButton(text);
  }

  lemma RegisterButtonFiltered(text: string)
    requires text == "注册"
    ensures ShouldFilterContent(text) == Verdict(true, ButtonText)
  {
    assert Phrase(text) in AccountButtons;
    ExactPhraseIsButton(text);
  }

  /** The two exclusions above, for text that is its own stripped, lowered form. */
  lemma StrippedControlTextExcluded(s: string, p: string, rest: string)
    requires |s| > 0 && !IsSpace(s[0]) && !IsSpace(s[|s| - 1]) && IsLowercase(s)
    requires Phrase(p) in ControlPrefixes || Phrase(p) in MenuPrefixes
    requires s == p + rest && '\n' !in rest
    ensures IsExcludedContent(s)
  {
    StripUnchanged(s);
    LowerOfLowercase(s);
    ControlPrefixExcluded(s, p, rest);
  }

  lemma StrippedPageTextExcluded(s: string, lead: char, e: nat)
    requires |s| > 0 && !IsSpace(s[0]) && !IsSpace(s[|s| - 1]) && IsLowercase(s)
    requires lead == '第' || lead == '共'
    requires e <= |s| && IsCountedPhrase(s[..e], lead) && '\n' !in s
    ensures IsExcludedContent(s)
  {
    StripUnchanged(s);
    LowerOfLowercase(s);
    PaginationPrefixExcluded(s, lead, e);
  }

  /**
   * Text made of keyword-blocking characters that is no exact button but
   * starts with a control or menu prefix is filtered as excluded content.
   */
  lemma HanControlTextExcluded(s: string, p: string, rest: string)
    requires |s| >= 2 && !IsSpace(s[0]) && !IsSpace(s[|s| - 1]) && !IsSymbolChar(s[0])
    requires forall i :: 0 <= i < |s| ==> HanTitleChar(s[i])
    requires !WholeMatch(s, ExactButtons)
    requires Phrase(p) in ControlPrefixes || Phrase(p) in MenuPrefixes
    requires s == p + rest && '\n' !in rest
    ensures ShouldFilterContent(s) == Verdict(true, ExcludedContent)
  {
    HanTextNotButton(s);
    StrippedControlTextExcluded(s, p, rest);
  }

  /** The sort control `排序方式：` is no button but excluded content. */
  lemma SortControlFiltered(text: string)
    requires text == "排序方式："
    ensures ShouldFilterContent(text) == Verdict(true, ExcludedContent)
  {
    NoExactButton(text);
    assert text == "排序方式" + "：";
    HanControlTextExcluded(text, "排序方式", "：");
  }

  /** `第 1 页` ends where the page label `第 1 页，共 1 页` goes on. */
  lemma PageInfoLabel(s: string)
    requires s == "第 1 页，共 1 页"
    ensures TokenEnd(s, 0, Counted('第')) == Some(5)
  {
    assert AllSpace(s[1..2]) && AllDigits(s[2..3]) && AllSpace(s[3..4]);
    CountedRuns(s, 0, 2, 3, 5);
  }

  /** The page label `第 1 页，共 1 页` is no exact button: its `第 1 页` stops short of the end. */
  lemma PageInfoNoExactButton(s: string)
    requires s == "第 1 页，共 1 页"
    ensures !WholeMatch(s, ExactButtons)
  {
    PageInfoLabel(s);
    forall t | t in ExactButtons && TokenEnd(s, 0, t).Some? ensures !AtEnd(s, TokenEnd(s, 0, t).value) {
      ExactButtonsProfile(t, s[0]);
    }
  }

  /**
   * Text made of keyword-blocking characters that is no exact button but
   * starts with a page label is filtered as excluded content.
   */
  lemma HanPageTextExcluded(s: string, lead: char, e: nat)
    requires |s| >= 2 && !IsSpace(s[0]) && !IsSpace(s[|s| - 1]) && !IsSymbolChar(s[0])
    requires forall i :: 0 <= i < |s| ==> HanTitleChar(s[i])
    requires !WholeMatch(s, ExactButtons)
    requires lead == '第' || lead == '共'
    requires e <= |s| && IsCountedPhrase(s[..e], lead) && '\n' !in s
    ensures ShouldFilterContent(s) == Verdict(true, ExcludedContent)
  {
    HanTextNotButton(s);
    StrippedPageTextExcluded(s, lead, e);
  }

  lemma PageLabelShape(w: string)
    requires w == "第 1 页"
    ensures IsCountedPhrase(w, '第')
  {
    assert AllSpace(w[1..2]) && AllDigits(w[2..3]) && AllSpace(w[3..4]);
    assert CountedShape(w, '第', 2, 3);
  }

  lemma PageInfoFiltered(text: string)
    requires text == "第 1 页，共 1 页"
    ensures ShouldFilterContent(text) == Verdict(true, ExcludedContent)
  {
    PageInfoNoExactButton(text);
    PageLabelShape(text[..5]);
    HanPageTextExcluded(text, '第', 5);
  }

  // ---------------------------------------------------------------------
  // The page and container checks of the script

  /** The script's Nuxt page, written around its marker, is recognised by the `nuxt` inside `__NUXT_DATA__`. */
  lemma NuxtSnippetDetected()
    ensures IsSpaApplication("<script id=\"__" + "NUXT" + "_DATA__\">{\"state\":1,\"once\":8}</script>")
  {
    assert Lower("NUXT") == "nuxt";
    LowerContainsPart("<script id=\"__", "NUXT", "_DATA__\">{\"state\":1,\"once\":8}</script>");
    assert "nuxt" in SpaIndicators;
  }

  /** The markers that decide whether a page is script-rendered. */
  predicate Unmarked(w: string) {
    !Contains(w, "nuxt") && !Contains(w, "vue") && !Contains(w, "react") && !Contains(w, "angular") && !Contains(w, "ng-app")
  }

  /** Joining two unmarked texts with a character no marker holds gives an unmarked text. */
  lemma UnmarkedJoin(a: string, c: char, b: string)
    requires c == ' ' || c == '>'
    requires Unmarked(a) && Unmarked(b)
    ensures Unmarked(a + [c] + b)
  {
    SplitAt(a, c, b, "nuxt");
    SplitAt(a, c, b, "vue");
    SplitAt(a, c, b, "react");
    SplitAt(a, c, b, "angular");
    SplitAt(a, c, b, "ng-app");
  }

  /** Each piece of the plain page lacks a character of every marker. */
  lemma PlainSnippetTagUnmarked(tag: string)
    requires tag == "<div class=\"content\""
    ensures Unmarked(tag)
  {
    var attribute := tag[5..];
    assert tag == "<div" + [' '] + attribute;
    DivUnmarked();
    AttributeUnmarked(attribute);
    UnmarkedJoin("<div", ' ', attribute);
  }

  lemma DivUnmarked()
    ensures Unmarked("<div")
  {
    AbsentChar("<div", "nuxt", 0);
    AbsentChar("<div", "vue", 1);
    AbsentChar("<div", "react", 0);
    AbsentChar("<div", "angular", 0);
    AbsentChar("<div", "ng-app", 0);
  }

  lemma AttributeUnmarked(attribute: string)
    requires attribute == "class=\"content\""
    ensures Unmarked(attribute)
  {
    assert 'x' !in attribute && 'u' !in attribute && 'r' !in attribute && 'g' !in attribute;
    AbsentChar(attribute, "nuxt", 2);
    AbsentChar(attribute, "vue", 1);
    AbsentChar(attribute, "react", 0);
    AbsentChar(attribute, "angular", 2);
    AbsentChar(attribute, "ng-app", 1);
  }

  lemma SomeUnmarked()
    ensures Unmarked("some")
  {
    AbsentChar("some", "nuxt", 0);
    AbsentChar("some", "vue", 0);
    AbsentChar("some", "react", 0);
    AbsentChar("some", "angular", 0);
    AbsentChar("some", "ng-app", 0);
  }

  lemma RegularUnmarked()
    ensures Unmarked("regular")
  {
    AbsentChar("regular", "nuxt", 0);
    AbsentChar("regular", "vue", 0);
    AbsentChar("regular", "react", 4);
    AbsentChar("regular", "angular", 1);
    AbsentChar("regular", "ng-app", 0);
  }

  lemma ClosingContentUnmarked()
    ensures Unmarked("content</div>")
  {
    var tail := "content</div>";
    assert 'x' !in tail && 'u' !in tail && 'r' !in tail && 'g' !in tail;
    AbsentChar(tail, "nuxt", 2);
    AbsentChar(tail, "vue", 1);
    AbsentChar(tail, "react", 0);
    AbsentChar(tail, "angular", 2);
    AbsentChar(tail, "ng-app", 1);
  }

  /** The script's plain page, lowered: only the `S` of `Some` changes. */
  lemma PlainSnippetLowered()
    ensures Lower("<div class=\"content\"" + ">" + "Some" + " " + "regular" + " " + "content</div>")
      == "<div class=\"content\"" + ">" + "some" + " " + "regular" + " " + "content</div>"
  {
    var tag := "<div class=\"content\"" + ">";
    var rest := "ome" + " " + "regular" + " " + "content</div>";
    assert "<div class=\"content\"" + ">" + "Some" + " " + "regular" + " " + "content</div>" == tag + ['S'] + rest;
    assert IsLowercase(tag) && IsLowercase(rest);
    LowerOneCapital(tag, 'S', rest);
  }

  /** The script's plain page, written piece by piece, is not taken for a script-rendered one. */
  lemma PlainSnippetNotDetected()
    ensures !IsSpaApplication("<div class=\"content\"" + ">" + "Some" + " " + "regular" + " " + "content</div>")
  {
    var tag := "<div class=\"content\"";
    PlainSnippetLowered();
    PlainSnippetTagUnmarked(tag);
    SomeUnmarked();
    RegularUnmarked();
    ClosingContentUnmarked();
    UnmarkedJoin(tag, '>', "some");
    UnmarkedJoin(tag + ">" + "some", ' ', "regular");
    UnmarkedJoin(tag + ">" + "some" + " " + "regular", ' ', "content</div>");
    SpaIndicatorsReduce("<div class=\"content\"" + ">" + "Some" + " " + "regular" + " " + "content</div>");
  }

  /**
   * The script's empty containers count as empty: the first two are blank
   * and the third has exactly ten characters.
   */
  lemma EmptyContainersDetected(texts: seq<string>)
    requires texts == ["", "   ", "我要发帖上一页下一页"]
    ensures IsPostsContainerEmpty(texts)
  {
    forall i | 0 <= i < |texts| ensures !IsMeaningfulContainer(texts[i]) {
      if i == 0 {
        BlankNotMeaningful(texts[0]);
      } else if i == 1 {
        BlankNotMeaningful(texts[1]);
      } else {
        MixedNavigationNotMeaningful(texts[2]);
      }
    }
  }

  /** The ten-character container text is too short to count. */
  lemma MixedNavigationNotMeaningful(text: string)
    requires text == "我要发帖上一页下一页"
    ensures !IsMeaningfulContainer(text)
  {
    ShortNotMeaningful(text);
  }

  /**
   * The ten-character container text mixes a posting action with page
   * navigation, so it is not navigation only: the length rule alone decides it.
   */
  lemma MixedNavigationNotOnlyNavigation(text: string)
    requires text == "我要发帖上一页下一页"
    ensures !IsOnlyNavigationContent(text)
  {
    LowerOfLowercase(text);
    NoMatchWithoutStart(text, PageNavigation);
    NoMatchWithoutStart(text, LoadingStates);
    MixedNavigationNoPostingRun(text);
  }

  /** Its posting action `我要发帖` is followed by `上`, which starts no posting action. */
  lemma MixedNavigationNoPostingRun(s: string)
    requires s == "我要发帖上一页下一页"
    ensures !RepeatedMatch(s, PostingActions)
  {
    forall t | t in PostingActions && TokenEnd(s, 0, t).Some? ensures TokenEnd(s, 0, t) == Some(4) {
      TokenStart(s, 0, t);
    }
    NoCoverWithoutStart(s, 4, |s|, PostingActions);
    NoCoverWithoutStart(s, 4, |s| - 1, PostingActions);
    NoCoverPastOnlyEnd(s, 0, 4, |s|, PostingActions);
    NoCoverPastOnlyEnd(s, 0, 4, |s| - 1, PostingActions);
  }

  /** The eleven-character title is no navigation text: nothing navigational starts with `这`. */
  lemma RealTitleNotNavigation(t: string)
    requires t == "这是一个真实的帖子标题"
    ensures !IsOnlyNavigationContent(t)
  {
    LowerOfLowercase(t);
    NoMatchWithoutStart(t, PageNavigation);
    NoMatchWithoutStart(t, PostingActions);
    NoMatchWithoutStart(t, LoadingStates);
  }

  /** A container with an eleven-character title is not empty. */
  lemma RealContainersDetected(texts: seq<string>)
    requires texts == ["这是一个真实的帖子标题", "欢迎新同学"]
    ensures !IsPostsContainerEmpty(texts)
  {
    StripUnchanged(texts[0]);
    RealTitleNotNavigation(texts[0]);
    assert IsMeaningfulContainer(texts[0]);
  }
}
