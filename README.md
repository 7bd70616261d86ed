# Unikorn forum news plugin, modelled in Dafny

The plugin watches the post list of the Unikorn forum
(`https://unikorn.axfff.com/forum`) and announces new posts to QQ groups.
This project models the core of that plugin and proves properties of it:

- **Posts** (`posts.dfy`): the pure part of the post pipeline. It covers
  turning a link's `href` into an absolute address, the two candidate
  strategies (the first link of each post-like element, or else every link
  that looks like a forum, post or thread link), de-duplication by address,
  which posts of a batch are new, title shortening with Python's `s[:n]`,
  the notification text, and the sends it produces, one per post and group.
- **NewsPlugin** (`plugin.dfy`): the plugin object `UnikornNewsPlugin`. It
  holds the set of known post identifiers, the data file that keeps that
  set between runs, and the sends made so far. Its methods are the fetch
  loops, the change detection that adds identifiers to the known set as it
  reads a batch, the nested notify loops, loading and saving the known set,
  and the `/unikorn posts` listing. Each method is proved against the
  functions of `Posts`.
- **FinalFilter** (`finalfilter.dfy`): the final generation of the
  page-chrome classifier. It contains single-page-application detection,
  the empty-container and navigation-only checks, the button test, the
  exclusion test and `should_filter_content` with its reason. It also
  proves the classifier's verdict on the script's own sample texts.
- **EarlyFilter** (`earlyfilter.dfy`): the earlier generation of the
  classifier. It adds broad substring keywords, English buttons and a
  substring exclusion list.
- **FilterComparison** (`comparison.dfy`): how the two generations relate.
  Every final button is an early button. A text the final generation
  excludes is excluded early as well, except for `联系我们` and texts
  starting with `面包屑`. So neither generation's filter contains the
  other.
- **Patterns** and **Text**: the regular expressions the classifiers use,
  written as exact matchers; `strip`, `lower` and substring search.

Regular expressions are modelled by what they match:
- `\s` is Python's whitespace set, the same set `str.strip` removes.
- `\d` is the ASCII digits only; Python also accepts other Unicode decimal digits (see "Left out").
- `$` matches at the end or before a final newline.
- `.` matches anything but a newline.
- A case-insensitive match is tested on the lowered text.

The indicator `__NUXT_DATA__` is searched for in lowered HTML, so it can
never match. The lemma `FinalFilter.NuxtDataMarkerNeverMatches` proves this,
and `FinalFilter.SpaIndicatorsReduce` shows the detector is the same
without it. The detector still catches that marker, through `nuxt`.

Two other parts of the final classifier never change a verdict. The
alternative `^.$` of its symbol test only matches a text that its length
test has already called a button (`FinalFilter.SingleCharRuleUnreachable`).
The script's list of texts to filter holds the page title `论坛文章` and
the navigation link `课程`, yet the classifier lets both pass
(`FinalFilter.ForumArticlesTitlePasses`, `FinalFilter.CourseTitlePasses`).
The earlier script's table expects `论坛文章` to pass, so which verdict is
intended is not settled by the repository; the model follows the code.

## Model

| member | source | states |
|---|---|---|
| Posts.NormalizeHrefShape | main.py:109-112 | A root-relative `href` is put under the site root. Any other `href` not starting with `http` is put under `/forum/`. An `href` starting with `http` is kept. The result always starts with `http` and ends with the original `href`. |
| Posts.NormalizeIdempotent | main.py:133-136 | Normalising an already normalised address changes nothing. |
| Posts.NormalizeMerges | main.py:109-112 | Two different `href`s (`/forum/7` and `7`) normalise to the same address, so the de-duplication can merge them. |
| Posts.ContainerPostsMembers | main.py:101-118 | The container strategy yields the post of every element whose link has an `href` and a title longer than 3 characters. It yields nothing else and never more posts than elements. |
| Posts.FallbackPostsMembers | main.py:121-142 | The fallback strategy yields the post of every link with an `href` containing `/forum/`, `/post/` or `/thread/` and a title of 6 to 199 characters. It yields nothing else. |
| Posts.CandidatesChoice | main.py:120-121 | When some post-like element has a link with an `href` and a title longer than 3, the candidates are the container strategy's posts, and there is at least one. When no element has such a link, the candidates are the fallback strategy's posts. |
| Posts.CandidatesWellFormed | main.py:114-118 | Every candidate's identifier is its address, and that address starts with `http`. |
| Posts.FirstIndex | main.py:144-150 | Gives the first position holding an address: that post has the address and no earlier one does. |
| Posts.DedupUnique | main.py:144-150 | De-duplication keeps every address of the input, each exactly once, and never lengthens the list. |
| Posts.DedupKeepsFirst | main.py:144-150 | De-duplication keeps, for each address, the first post that has it, in page order. |
| Posts.FetchedUnique | main.py:78-157 | A fetch gives nothing when the page could not be had. Otherwise it gives the candidates' addresses, each exactly once. |
| Posts.FetchedWellFormed | main.py:114-118 | Every fetched post is a candidate whose identifier is its absolute address. |
| Posts.NewPostsSound | main.py:165-168 | The new posts come from the batch and were not known before. Their identifiers are exactly the batch's unknown identifiers, each once. |
| Posts.NothingNewWhenKnown | main.py:165-168 | A batch whose identifiers are all known contains no new post. |
| Posts.NewPostsIdempotent | main.py:165-168 | After a batch's identifiers are added to the known set, the same batch contains nothing new. A second check without site changes announces nothing. |
| Posts.Unknown | main.py:165-168 | Reference definition: a post is listed iff it is in the batch and its identifier was not known. |
| Posts.NewPostsOfDistinct | main.py:165-168 | For a batch without repeated identifiers, the new posts are exactly the unknown ones, in batch order. |
| Posts.FetchedNewPostsAreUnknown | main.py:161-168 | For a fetched batch, the new posts are exactly the fetched posts that were not known, in page order. |
| Posts.PyPrefixShape | main.py:193 | `s[:n]` is a prefix of `s`. Its length is `min(n, len(s))` for `n >= 0`, and `max(len(s) + n, 0)` for negative `n`. |
| Posts.DisplayTitleShape | main.py:192-193 | A title within the limit is unchanged. A longer one becomes a prefix of it followed by `...`; with a non-negative limit that is exactly limit + 3 characters. |
| Posts.MessageShape | main.py:195 | A notification starts with the header line and the title marker, and ends with the post's address. |
| Posts.OriginInjective | main.py:204 | Different groups get different conversation origins (`qq_group_<id>`). |
| Posts.AttemptsLength | main.py:190-210 | Notifying makes exactly one send per post and group. |
| Posts.AttemptAt | main.py:190-210 | The send for post `i` and group `j` is at position `i * groups + j`: posts in the outer loop, groups in the inner loop. |
| Posts.AttemptFor | main.py:198-210 | That send goes to group `j`'s origin, carries post `i`'s notification, and records the platform's answer for that pair only. A failed send does not affect the others. |
| Posts.NoGroupsNoAttempts | main.py:186-188 | With no target groups nothing is sent. |
| NewsPlugin.Stored | main.py:52-63 | A missing or unreadable data file yields nothing. A readable file yields exactly the identifiers in its `known_posts` list, or none when the list is missing. |
| NewsPlugin.UnikornNewsPlugin.constructor | main.py:17-27 | A new plugin knows no posts, has sent nothing and uses the forum address. |
| NewsPlugin.UnikornNewsPlugin.LoadKnownPosts | main.py:52-63 | A readable data file replaces the known set. Otherwise the known set stays as it was. |
| NewsPlugin.UnikornNewsPlugin.SaveKnownPosts | main.py:65-76 | When writing succeeds, the file holds the known set listed once per identifier, and loading it gives back that set. A failed write changes nothing. |
| NewsPlugin.UnikornNewsPlugin.FetchForumPosts | main.py:78-157 | The three loops (container, fallback, de-duplication) compute exactly `Fetched(page)`. |
| NewsPlugin.UnikornNewsPlugin.RecordNewPosts | main.py:163-168 | The loop returns exactly `NewPosts(batch, old known)` and adds every identifier of the batch to the known set. |
| NewsPlugin.UnikornNewsPlugin.CheckForNewPosts | main.py:159-178 | Returns the new posts of the fetch. The known set grows by every fetched identifier. Notification and saving happen only when something is new; then the sends are exactly `Attempts(new posts, groups, limit)`, and a successful save stores the new known set. |
| NewsPlugin.UnikornNewsPlugin.NotifyNewPosts | main.py:180-213 | The sends made are exactly `Attempts` over the new posts and the configured groups. With no groups nothing is sent. The known set and the file are untouched. |
| NewsPlugin.UnikornNewsPlugin.SendToGroups | main.py:197-210 | The inner loop makes one send per group, in order, for one post. |
| NewsPlugin.UnikornNewsPlugin.ListPosts | main.py:297-326 | Nothing is listed iff the fetch found no post. Otherwise the first `min(n, 5)` fetched posts are listed, numbered from 1 with shortened titles, and the number left out is `n - shown`. |
| FinalFilter.NuxtDataMarkerNeverMatches | test_complete_solution.py:11 | The upper-case indicator can never occur in lowered HTML. |
| FinalFilter.SpaIndicatorsReduce | test_complete_solution.py:8-16 | The page is a single-page application iff its lowered HTML contains `nuxt`, `vue`, `react`, `angular` or `ng-app`. The other three indicators add nothing. |
| FinalFilter.ShortContainersAreEmpty | test_complete_solution.py:18-26 | A container list whose stripped texts all have at most 10 characters counts as empty. |
| FinalFilter.ShortNotMeaningful | test_complete_solution.py:21 | A text of at most 10 stripped characters never shows that the posts container has content. |
| FinalFilter.BlankNotMeaningful | test_complete_solution.py:21 | A blank text never shows that the posts container has content. |
| FinalFilter.SingleCharRuleUnreachable | test_complete_solution.py:83 | The single-character alternative `^.$` can only match a text shorter than 2 characters, which the opening test has already classed as a button. |
| FinalFilter.ButtonTextCases | test_complete_solution.py:39-86 | A text is a button iff it is blank or shorter than 2 characters once stripped, matches an exact button pattern, contains a conservative keyword, or is made only of digits and separators. |
| FinalFilter.ShouldFilterContent | test_complete_solution.py:115-126 | A text is filtered iff its reason is not "normal content". |
| FinalFilter.EmptyReasonIffBlank | test_complete_solution.py:117-118 | The reason is "empty content" iff the text is blank. |
| FinalFilter.FilteredIffChrome | test_complete_solution.py:115-126 | A text is filtered iff it is a button or excluded content. |
| FinalFilter.BlankTextReportedEmpty | test_complete_solution.py:117-118 | A blank text is filtered as empty content, even though the button test also accepts it. |
| FinalFilter.ReasonPrecedence | test_complete_solution.py:115-126 | The reason is "button" iff the text is not blank and is a button. It is "excluded" iff the text is neither blank nor a button but is excluded. |
| FinalFilter.NoExactButton | test_complete_solution.py:45-60 | A text whose first character starts no exact button pattern matches none of them. |
| FinalFilter.HanTextNotButton | test_complete_solution.py:39-86 | A Chinese text of 2 or more characters, with no symbol first character and no keyword character, that matches no exact button pattern, is not a button. |
| FinalFilter.HanTitleNotButton | test_complete_solution.py:39-86 | Such a text is not a button at all when its first character starts no pagination label, and either starts no whole-text pattern or the text is longer than 4. |
| FinalFilter.HanTitlePasses | test_complete_solution.py:115-126 | Such a text passes the filter when its first character starts no prefix pattern, and either starts no whole-text pattern or the text is longer than 4. |
| FinalFilter.CourseChoiceAdviceTitlePasses | test_complete_solution.py:148 | `关于课程选择的建议` passes as normal content. |
| FinalFilter.FreshmanGuideTitlePasses | test_complete_solution.py:149 | `新生入学指南` passes as normal content. |
| FinalFilter.CampusLifeSharingTitlePasses | test_complete_solution.py:150 | `学校生活分享` passes as normal content. |
| FinalFilter.StudyMethodDiscussionTitlePasses | test_complete_solution.py:151 | `讨论：最好的学习方法` passes as normal content. |
| FinalFilter.RoommateSearchTitlePasses | test_complete_solution.py:152 | `寻找室友` passes as normal content. |
| FinalFilter.CampusEventsTitlePasses | test_complete_solution.py:153 | `校园活动推荐` passes as normal content. |
| FinalFilter.FinalExamNotesTitlePasses | test_complete_solution.py:154 | `期末复习资料整理` passes as normal content. |
| FinalFilter.ImproveEnglishTitlePasses | test_complete_solution.py:155 | `How to improve English` passes as normal content. |
| FinalFilter.StudyGroupTitlePasses | test_complete_solution.py:156 | `Study group formation` passes as normal content. |
| FinalFilter.PostingRulesDiscussionTitlePasses | test_complete_solution.py:157 | `关于发帖规则的讨论` passes, although it contains `发帖`. |
| FinalFilter.HowToPostTitlePasses | test_complete_solution.py:158 | `如何在论坛发帖？` passes, although it contains `发帖`. |
| FinalFilter.ForumArticlesTitlePasses | test_complete_solution.py:135 | The page title `论坛文章` passes, although the script lists it among the texts to filter. |
| FinalFilter.CourseTitlePasses | test_complete_solution.py:143 | The navigation link `课程` passes, although the script lists it among the texts to filter. |
| FinalFilter.LatinTitlePasses | test_complete_solution.py:115-126 | A title of 2 or more characters that starts with a latin letter and contains no conservative keyword passes. |
| FinalFilter.ExactPhraseIsButton | test_complete_solution.py:45-60 | A text that is one of the literal exact buttons is filtered as a button. |
| FinalFilter.ControlPrefixExcluded | test_complete_solution.py:101-103 | A single-line text starting, after stripping and lowering, with a control or menu prefix is excluded. |
| FinalFilter.PaginationPrefixExcluded | test_complete_solution.py:98 | A single-line text starting with `第 n 页` or `共 n 页` is excluded. |
| FinalFilter.PostingButtonFiltered | test_complete_solution.py:47 | `我要发帖` is filtered as a button. |
| FinalFilter.PreviousPageButtonFiltered | test_complete_solution.py:51 | `上一页` is filtered as a button. |
| FinalFilter.NextPageButtonFiltered | test_complete_solution.py:51 | `下一页` is filtered as a button. |
| FinalFilter.HomeButtonFiltered | test_complete_solution.py:51 | `首页` is filtered as a button. |
| FinalFilter.LoginButtonFiltered | test_complete_solution.py:49 | `登录` is filtered as a button. |
| FinalFilter.RegisterButtonFiltered | test_complete_solution.py:49 | `注册` is filtered as a button. |
| FinalFilter.SortControlFiltered | test_complete_solution.py:101 | `排序方式：` is filtered as excluded content, not as a button. |
| FinalFilter.PageInfoFiltered | test_complete_solution.py:98 | `第 1 页，共 1 页` is filtered as excluded content: it matches no whole-text button pattern, but matches the pagination prefix. |
| FinalFilter.NuxtSnippetDetected | test_complete_solution.py:193 | The script's Nuxt snippet is detected as a single-page application. |
| FinalFilter.PlainSnippetNotDetected | test_complete_solution.py:194 | The script's plain HTML snippet is not detected as one. |
| FinalFilter.EmptyContainersDetected | test_complete_solution.py:205 | `["", "   ", "我要发帖上一页下一页"]` counts as an empty posts container. |
| FinalFilter.NavigationPiecesAreOnlyNavigation | test_complete_solution.py:28-37 | A text whose lowered form is one or more phrases (or `第 n 页` / `共 n 页` labels) of a single group, optionally followed by one newline, is navigation-only. |
| FinalFilter.OnlyNavigationIsPieces | test_complete_solution.py:28-37 | Conversely, a navigation-only text is, once lowered and apart from one final newline, one or more phrases of a single group. |
| Patterns.PiecesCover | test_complete_solution.py:31 | Pieces of a group written one after another are matched by `^(...)+$`. |
| Patterns.CoverPieces | test_complete_solution.py:31 | A match of `^(...)+$` over literal and counted alternatives cuts the text into pieces of the group. |
| FinalFilter.MixedNavigationNotOnlyNavigation | test_complete_solution.py:28-37 | `我要发帖上一页下一页` is not navigation-only, because it mixes two pattern families. |
| FinalFilter.MixedNavigationNotMeaningful | test_complete_solution.py:21 | `我要发帖上一页下一页` still makes no container meaningful, since it is only 10 characters long. |
| FinalFilter.RealContainersDetected | test_complete_solution.py:206 | `["这是一个真实的帖子标题", "欢迎新同学"]` does not count as empty. |
| EarlyFilter.ExcludedByKeyword | test_filtering_improvements.py:62-73 | An exclusion keyword anywhere in the raw text excludes it. |
| EarlyFilter.ButtonByKeyword | test_filtering_improvements.py:35-54 | A broad keyword anywhere in the lowered text makes it a button. |
| EarlyFilter.EnglishButtonAnyCase | test_filtering_improvements.py:30-31 | The English buttons match in any letter case and with surrounding whitespace. |
| EarlyFilter.DigitsAreButtons | test_filtering_improvements.py:57 | Any non-empty run of digits (`1`, `123`) is a button. |
| EarlyFilter.NoBroadKeyword | test_filtering_improvements.py:35-40 | A text made only of characters that start no keyword contains no broad keyword. |
| EarlyFilter.EarlyHanTextPasses | test_filtering_improvements.py:125-129 | A Chinese text of 2 or more characters that avoids the keywords' characters and the exact buttons is not filtered. |
| EarlyFilter.CapitalPostIsButton | test_filtering_improvements.py:30 | `POST` is a button. |
| EarlyFilter.CapitalLoginIsButton | test_filtering_improvements.py:30 | `Login` is a button. |
| EarlyFilter.SortControlExcluded | test_filtering_improvements.py:90 | `排序方式：` is filtered. |
| EarlyFilter.ForumArticlesPassesEarly | test_filtering_improvements.py:113 | `论坛文章` passes, as the table expects. |
| EarlyFilter.SchoolLifeSharingFiltered | test_filtering_improvements.py:101 | `学校生活分享` is filtered, although the table expects it to pass. |
| EarlyFilter.CourseChoiceAdviceFiltered | test_filtering_improvements.py:99 | `关于课程选择的建议` is filtered, although the table expects it to pass. |
| EarlyFilter.PostingRulesDiscussionFiltered | test_filtering_improvements.py:114 | `关于发帖规则的讨论` is filtered, although the table expects it to pass. |
| EarlyFilter.HowToPostFiltered | test_filtering_improvements.py:115 | `如何在论坛发帖？` is filtered, although the table expects it to pass. |
| FilterComparison.ConservativeWithinBroad | test_complete_solution.py:63-67 | Every conservative keyword of the final generation is one of the earlier generation's broad keywords. |
| FilterComparison.FinalButtonIsEarlyButton | test_complete_solution.py:39-86 | Every text the final generation calls a button, the earlier generation calls a button too. |
| FilterComparison.FinalExcludedIsEarlyExcluded | test_complete_solution.py:88-113 | Every text the final generation excludes is excluded early as well, unless it is `联系我们` or starts with `面包屑`. |
| FilterComparison.FinalFilteredIsEarlyFiltered | test_complete_solution.py:115-126 | Every text the final generation filters is filtered early as well, apart from those two shapes. |
| FilterComparison.ContactUsFinalOnly | test_complete_solution.py:100 | `联系我们` is excluded by the final generation but passes the earlier one. |
| FilterComparison.BreadcrumbFinalOnly | test_complete_solution.py:103 | `面包屑` is excluded by the final generation but passes the earlier one. |
| FilterComparison.SchoolLifeSharingEarlyOnly | test_filtering_improvements.py:101 | `学校生活分享` is filtered by the earlier generation but passes the final one, so neither filter contains the other. |
| Patterns.CountedEndExact | test_complete_solution.py:53 | The matcher for `第\s*\d+\s*页` ends exactly where a whitespace run, digit run, whitespace run and `页` end. |
| Patterns.WholeMatchAppend | test_complete_solution.py:45-60 | Matching a whole text against a list of alternatives is the same as matching either part of the list. |

## Left out

- The HTTP session, status codes and request errors are not modelled. A page that could not be fetched is `None`, and the fetch then yields no posts. This is also how the source behaves when there is no session, on a non-200 status, or on an exception.
- HTML parsing is not modelled. A page is given as the first link (title and `href`) of each post-like element, and as the list of all links. The titles are assumed already stripped, and the class-name test that selects post-like elements is not modelled.
- File I/O and JSON are not modelled. The data file is a `DataFile` value, and whether a write succeeds is a parameter.
- The `last_update` timestamp is not stored, since the clock is not modelled.
- SaveKnownPosts: a write that fails part-way may leave a truncated file in the source; the model leaves the file unchanged.
- The chat platform is not modelled. Whether it accepts a send is a function parameter, and the message chain wrapper and logging are left out.
- The monitoring task is not modelled: its periodic loop, start and stop, `initialize` and `terminate` are asyncio and timing.
- The command handlers other than `/unikorn posts` are not modelled, nor the text of their replies.
- ListPosts: the listing is returned as numbered entries and a count, not as the formatted reply text.
- Group identifiers are strings. Configuration values are assumed to have the intended types: a list of groups and an integer limit.
- `str.lower` and `re.IGNORECASE` are modelled on ASCII letters only. The keywords and patterns hold no cased character besides ASCII letters, so this matters only for texts with other cased letters.
- `\d` is modelled as the ASCII digits `0`-`9`. Python's `\d` on text also accepts every other Unicode decimal digit, so `第１页` and `１２３` (full-width digits) are buttons in the source but not in the model.
- The test scripts' accuracy counts and printing are not modelled; only the verdicts they print are proved.
- The debugging, structure-probing and API-test scripts of the repository are not part of this model.

## Findings

| source | as written | input that shows it | evidently intended | confidence | as-written member | corrected member |
|---|---|---|---|---|---|---|
| test_filtering_improvements.py:101 | The broad button keyword `分享` filters any title containing it. | `学校生活分享` | Real post titles pass, as the table on line 101 expects. | not executed | EarlyFilter.SchoolLifeSharingFiltered | FinalFilter.CampusLifeSharingTitlePasses |
| test_filtering_improvements.py:99 | The broad keyword `关于` filters any title containing it. | `关于课程选择的建议` | The title passes, as the table on line 99 expects. | not executed | EarlyFilter.CourseChoiceAdviceFiltered | FinalFilter.CourseChoiceAdviceTitlePasses |
| test_filtering_improvements.py:114 | The broad keywords `关于` and `发帖` filter the title. | `关于发帖规则的讨论` | A discussion that mentions posting passes, as the table on line 114 expects. | not executed | EarlyFilter.PostingRulesDiscussionFiltered | FinalFilter.PostingRulesDiscussionTitlePasses |
| test_filtering_improvements.py:115 | The broad keyword `发帖` filters the title. | `如何在论坛发帖？` | A question about posting passes, as the table on line 115 expects. | not executed | EarlyFilter.HowToPostFiltered | FinalFilter.HowToPostTitlePasses |
