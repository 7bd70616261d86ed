/**
 * The plugin's post pipeline as values: turning the links a page offers
 * into posts, normalising their addresses, dropping repeated addresses,
 * telling new posts from known ones, and shaping what is sent and listed.
 *
 * The HTML parser is replaced by what it yields: for the container strategy,
 * one entry per post-like element (its first link, if any); for the fallback
 * strategy, every link of the page.  A link's title is its text with
 * whitespace stripped, as the parser returns it.
 */
module Posts {
  import opened Text
  import opened Wrappers

  /** The forum's site root and forum base. */
  const SiteRoot: string := "https://unikorn.axfff.com"
  const ForumBase: string := "https://unikorn.axfff.com/forum/"

  /** A link as the parser yields it: its stripped text and its `href`. */
  datatype Link = Link(title: string, href: string)

  /** A post; its identifier is its address. */
  datatype Post = Post(title: string, url: string, id: string)

  /** One page of the forum: the first link of each post-like element, and all links. */
  datatype Page = Page(elements: seq<Option<Link>>, links: seq<Link>)

  // ---------------------------------------------------------------------
  // Addresses

  /**
   * The absolute address of a link: a root-relative `href` is put under the
   * site root, any other one not starting with `http` under the forum base.
   */
  function NormalizeHref(href: string): (url: string)
  {
    if StartsWith(href, "/") then SiteRoot + href
    else if !StartsWith(href, "http") then ForumBase + href
    else href
  }

  /**
   * A normalised address starts with `http` and ends with the `href` it
   * came from; an `href` that already starts with `http` is kept as it is.
   */
  lemma NormalizeHrefShape(href: string)
    ensures StartsWith(NormalizeHref(href), "http")
    ensures |href| <= |NormalizeHref(href)| && NormalizeHref(href)[|NormalizeHref(href)| - |href|..] == href
    ensures StartsWith(href, "http") ==> NormalizeHref(href) == href
    ensures StartsWith(href, "/") ==> NormalizeHref(href) == SiteRoot + href
    ensures !StartsWith(href, "/") && !StartsWith(href, "http") ==> NormalizeHref(href) == ForumBase + href
  {
    SlashNotHttp(href);
    var url := NormalizeHref(href);
    if StartsWith(href, "/") {
      assert url == SiteRoot + href;
      assert url[..4] == SiteRoot[..4];
    } else if !StartsWith(href, "http") {
      assert url[..4] == ForumBase[..4];
    }
  }

  lemma SlashNotHttp(href: string)
    ensures StartsWith(href, "/") ==> !StartsWith(href, "http")
  {
    if |href| >= 4 {
      assert href[..1][0] == href[0] && href[..4][0] == href[0];
    }
  }

  /** Normalising an address already normalised changes nothing. */
  lemma NormalizeIdempotent(href: string)
    ensures NormalizeHref(NormalizeHref(href)) == NormalizeHref(href)
  {
    NormalizeHrefShape(href);
    NormalizeHrefShape(NormalizeHref(href));
  }

  /** Two different links can name one address, so de-duplication can merge them. */
  lemma NormalizeMerges(a: string, b: string)
    requires a == "/forum/7" && b == "7"
    ensures a != b && NormalizeHref(a) == NormalizeHref(b)
  {
    assert a[..1] == "/";
    assert b[..1][0] == '7';
    assert SiteRoot + a == ForumBase + b;
  }

  /** The post a link stands for. */
  function MakePost(l: Link): (p: Post)
  {
    var url := NormalizeHref(l.href);
    Post(l.title, url, url)
  }

  // ---------------------------------------------------------------------
  // The two strategies

  /** The container strategy keeps an element whose link has an `href` and a title longer than three. */
  predicate ContainerKeeps(e: Option<Link>) {
    e.Some? && e.value.href != [] && |e.value.title| > 3
  }

  /** The posts the container strategy collects, in page order. */
  function ContainerPosts(elements: seq<Option<Link>>): (posts: seq<Post>)
  {
    if |elements| == 0 then []
    else
      var init := elements[..|elements| - 1];
      var e := elements[|elements| - 1];
      if ContainerKeeps(e) then ContainerPosts(init) + [MakePost(e.value)] else ContainerPosts(init)
  }

  /** Reading one more element. */
  lemma ContainerPostsStep(elements: seq<Option<Link>>, e: Option<Link>)
    ensures ContainerPosts(elements + [e])
      == if ContainerKeeps(e) then ContainerPosts(elements) + [MakePost(e.value)] else ContainerPosts(elements)
  {
    assert (elements + [e])[..|elements|] == elements;
  }

  /** The container strategy yields the post of every kept element and nothing else. */
  lemma {:induction false} ContainerPostsMembers(elements: seq<Option<Link>>)
    ensures |ContainerPosts(elements)| <= |elements|
    ensures forall i :: 0 <= i < |elements| && ContainerKeeps(elements[i]) ==>
      MakePost(elements[i].value) in ContainerPosts(elements)
    ensures forall p :: p in ContainerPosts(elements) ==>
      exists i :: 0 <= i < |elements| && ContainerKeeps(elements[i]) && p == MakePost(elements[i].value)
    decreases |elements|
  {
    if |elements| > 0 {
      var n := |elements| - 1;
      var init := elements[..n];
      var r := ContainerPosts(elements);
      ContainerPostsMembers(init);
      assert forall q :: q in ContainerPosts(init) ==> q in r;
      forall i | 0 <= i < n && ContainerKeeps(elements[i]) ensures MakePost(elements[i].value) in r {
        assert init[i] == elements[i];
      }
      forall p | p in r
        ensures exists i :: 0 <= i < |elements| && ContainerKeeps(elements[i]) && p == MakePost(elements[i].value)
      {
        if p in ContainerPosts(init) {
          var i :| 0 <= i < n && ContainerKeeps(init[i]) && p == MakePost(init[i].value);
          assert init[i] == elements[i];
        } else {
          assert ContainerKeeps(elements[n]) && p == MakePost(elements[n].value);
        }
      }
    }
  }

  /** The fallback strategy keeps a forum, post or thread link whose title has 6 to 199 characters. */
  predicate FallbackKeeps(l: Link) {
    l.href != [] && l.title != []
    && (Contains(l.href, "/forum/") || Contains(l.href, "/post/") || Contains(l.href, "/thread/"))
    && 5 < |l.title| < 200
  }

  /** The posts the fallback strategy collects, in page order. */
  function FallbackPosts(links: seq<Link>): (posts: seq<Post>)
  {
    if |links| == 0 then []
    else
      var init := links[..|links| - 1];
      var l := links[|links| - 1];
      if FallbackKeeps(l) then FallbackPosts(init) + [MakePost(l)] else FallbackPosts(init)
  }

  /** Reading one more link. */
  lemma FallbackPostsStep(links: seq<Link>, l: Link)
    ensures FallbackPosts(links + [l]) == if FallbackKeeps(l) then FallbackPosts(links) + [MakePost(l)] else FallbackPosts(links)
  {
    assert (links + [l])[..|links|] == links;
  }

  /** The fallback strategy yields the post of every kept link and nothing else. */
  lemma {:induction false} FallbackPostsMembers(links: seq<Link>)
    ensures |FallbackPosts(links)| <= |links|
    ensures forall i :: 0 <= i < |links| && FallbackKeeps(links[i]) ==> MakePost(links[i]) in FallbackPosts(links)
    ensures forall p :: p in FallbackPosts(links) ==>
      exists i :: 0 <= i < |links| && FallbackKeeps(links[i]) && p == MakePost(links[i])
    decreases |links|
  {
    if |links| > 0 {
      var n := |links| - 1;
      var init := links[..n];
      var r := FallbackPosts(links);
      FallbackPostsMembers(init);
      assert forall q :: q in FallbackPosts(init) ==> q in r;
      forall i | 0 <= i < n && FallbackKeeps(links[i]) ensures MakePost(links[i]) in r {
        assert init[i] == links[i];
      }
      forall p | p in r
        ensures exists i :: 0 <= i < |links| && FallbackKeeps(links[i]) && p == MakePost(links[i])
      {
        if p in FallbackPosts(init) {
          var i :| 0 <= i < n && FallbackKeeps(init[i]) && p == MakePost(init[i]);
          assert init[i] == links[i];
        } else {
          assert FallbackKeeps(links[n]) && p == MakePost(links[n]);
        }
      }
    }
  }

  /** The fallback strategy runs only when the container strategy found nothing. */
  function Candidates(page: Page): (posts: seq<Post>)
    ensures ContainerPosts(page.elements) != [] ==> posts == ContainerPosts(page.elements)
    ensures ContainerPosts(page.elements) == [] ==> posts == FallbackPosts(page.links)
  {
    var found := ContainerPosts(page.elements);
    if found != [] then found else FallbackPosts(page.links)
  }

  /**
   * The strategy is chosen by the page itself: when some post-like element
   * has a link with an `href` and a title longer than three, the candidates
   * are the container strategy's posts; when none has, they are the
   * fallback strategy's.
   */
  lemma CandidatesChoice(page: Page)
    ensures (exists i :: 0 <= i < |page.elements| && ContainerKeeps(page.elements[i])) ==>
      Candidates(page) == ContainerPosts(page.elements) && Candidates(page) != []
    ensures (forall i :: 0 <= i < |page.elements| ==> !ContainerKeeps(page.elements[i])) ==>
      Candidates(page) == FallbackPosts(page.links)
  {
    ContainerPostsMembers(page.elements);
    if ContainerPosts(page.elements) != [] {
      var p := ContainerPosts(page.elements)[0];
      assert p in ContainerPosts(page.elements);
    }
  }

  /** Every candidate is a post whose identifier is its absolute address. */
  lemma CandidatesWellFormed(page: Page, p: Post)
    requires p in Candidates(page)
    ensures p.id == p.url && StartsWith(p.url, "http")
  {
    ContainerPostsMembers(page.elements);
    FallbackPostsMembers(page.links);
    if p in ContainerPosts(page.elements) {
      var i :| 0 <= i < |page.elements| && ContainerKeeps(page.elements[i]) && p == MakePost(page.elements[i].value);
      NormalizeHrefShape(page.elements[i].value.href);
    } else {
      var i :| 0 <= i < |page.links| && FallbackKeeps(page.links[i]) && p == MakePost(page.links[i]);
      NormalizeHrefShape(page.links[i].href);
    }
  }

  // ---------------------------------------------------------------------
  // De-duplication

  function Urls(ps: seq<Post>): set<string> {
    set p | p in ps :: p.url
  }

  lemma UrlsAppend(ps: seq<Post>, p: Post)
    ensures Urls(ps + [p]) == Urls(ps) + {p.url}
  {
    forall q | q in ps ensures q in ps + [p] {
    }
  }

  /** The addresses are pairwise distinct. */
  predicate DistinctUrls(ps: seq<Post>) {
    forall i, j :: 0 <= i < j < |ps| ==> ps[i].url != ps[j].url
  }

  /** The first position of an address. */
  function FirstIndex(ps: seq<Post>, url: string): (i: nat)
    requires url in Urls(ps)
    ensures i < |ps| && ps[i].url == url
    ensures forall j :: 0 <= j < i ==> ps[j].url != url
  {
    if ps[0].url == url then 0
    else
      assert url in Urls(ps[1..]) by {
        var p :| p in ps && p.url == url;
        assert p in ps[1..];
      }
      1 + FirstIndex(ps[1..], url)
  }

  lemma FirstIndexUnique(ps: seq<Post>, url: string, i: nat)
    requires i < |ps| && ps[i].url == url
    requires forall j :: 0 <= j < i ==> ps[j].url != url
    ensures url in Urls(ps) && FirstIndex(ps, url) == i
  {
    assert ps[i] in ps;
  }

  /** `unique_posts`: each address once, the first post that has it winning. */
  function Dedup(ps: seq<Post>): (d: seq<Post>)
  {
    if |ps| == 0 then []
    else
      var init := ps[..|ps| - 1];
      var p := ps[|ps| - 1];
      if p.url in Urls(Dedup(init)) then Dedup(init) else Dedup(init) + [p]
  }

  /** Reading one more post while `seen` holds the addresses read so far. */
  lemma DedupRead(ps: seq<Post>, p: Post, seen: set<string>)
    requires seen == Urls(ps)
    ensures seen + {p.url} == Urls(ps + [p])
    ensures Dedup(ps + [p]) == if p.url in seen then Dedup(ps) else Dedup(ps) + [p]
  {
    assert (ps + [p])[..|ps|] == ps;
    UrlsAppend(ps, p);
    DedupUnique(ps);
  }

  /** De-duplication keeps every address, each once, and never lengthens the list. */
  lemma {:induction false} DedupUnique(ps: seq<Post>)
    ensures Urls(Dedup(ps)) == Urls(ps)
    ensures DistinctUrls(Dedup(ps))
    ensures |Dedup(ps)| <= |ps|
    decreases |ps|
  {
    if |ps| > 0 {
      var init := ps[..|ps| - 1];
      var p := ps[|ps| - 1];
      var d := Dedup(init);
      DedupUnique(init);
      assert ps == init + [p];
      UrlsAppend(init, p);
      if p.url !in Urls(d) {
        UrlsAppend(d, p);
        forall i | 0 <= i < |d| ensures d[i].url != p.url {
          assert d[i] in d;
        }
      }
    }
  }

  /**
   * `d` holds the first post of some addresses of `ps`, in page order: each
   * kept post is the first post with its address, and the first positions of
   * the kept posts increase.
   */
  predicate KeptFirst(ps: seq<Post>, d: seq<Post>) {
    (forall k :: 0 <= k < |d| ==> d[k].url in Urls(ps) && d[k] == ps[FirstIndex(ps, d[k].url)])
    && (forall k1, k2 :: 0 <= k1 < k2 < |d| ==>
          d[k1].url in Urls(ps) && d[k2].url in Urls(ps)
          && FirstIndex(ps, d[k1].url) < FirstIndex(ps, d[k2].url))
  }

  /** An address's first position does not move when a post is appended. */
  lemma FirstIndexExtend(ps: seq<Post>, p: Post, url: string)
    requires url in Urls(ps)
    ensures url in Urls(ps + [p]) && FirstIndex(ps + [p], url) == FirstIndex(ps, url)
  {
    var i := FirstIndex(ps, url);
    assert (ps + [p])[i] == ps[i];
    FirstIndexUnique(ps + [p], url, i);
  }

  lemma KeptFirstExtend(ps: seq<Post>, p: Post, d: seq<Post>)
    requires KeptFirst(ps, d)
    ensures KeptFirst(ps + [p], d)
  {
    forall k | 0 <= k < |d|
      ensures d[k].url in Urls(ps + [p]) && FirstIndex(ps + [p], d[k].url) == FirstIndex(ps, d[k].url)
    {
      FirstIndexExtend(ps, p, d[k].url);
    }
  }

  lemma KeptFirstAppend(ps: seq<Post>, p: Post, d: seq<Post>)
    requires KeptFirst(ps, d) && p.url !in Urls(ps)
    ensures KeptFirst(ps + [p], d + [p])
  {
    KeptFirstExtend(ps, p, d);
    var e := ps + [p];
    forall j | 0 <= j < |ps| ensures e[j].url != p.url {
      assert e[j] == ps[j] && ps[j] in ps;
    }
    FirstIndexUnique(e, p.url, |ps|);
    forall k | 0 <= k < |d| ensures FirstIndex(e, d[k].url) < |ps| {
      FirstIndexExtend(ps, p, d[k].url);
    }
  }

  /** De-duplication keeps exactly the first post of each address, in page order. */
  lemma {:induction false} DedupKeepsFirst(ps: seq<Post>)
    ensures KeptFirst(ps, Dedup(ps))
  {
    if |ps| > 0 {
      var init := ps[..|ps| - 1];
      var p := ps[|ps| - 1];
      assert ps == init + [p];
      DedupKeepsFirst(init);
      DedupUnique(init);
      if p.url in Urls(Dedup(init)) {
        KeptFirstExtend(init, p, Dedup(init));
      } else {
        KeptFirstAppend(init, p, Dedup(init));
      }
    }
  }

  // ---------------------------------------------------------------------
  // What a fetch returns

  /** `fetch_forum_posts`: nothing when the page could not be had, otherwise the de-duplicated candidates. */
  function Fetched(page: Option<Page>): (posts: seq<Post>)
  {
    if page.None? then [] else Dedup(Candidates(page.value))
  }

  /** A fetch yields each candidate address exactly once, and nothing when the page could not be had. */
  lemma FetchedUnique(page: Option<Page>)
    ensures DistinctUrls(Fetched(page))
    ensures page.Some? ==> Urls(Fetched(page)) == Urls(Candidates(page.value))
    ensures page.None? ==> Fetched(page) == []
  {
    if page.Some? {
      DedupUnique(Candidates(page.value));
    }
  }

  /** Every fetched post is a candidate, identified by its absolute address. */
  lemma FetchedWellFormed(page: Option<Page>, k: nat)
    requires k < |Fetched(page)|
    ensures Fetched(page)[k] in Candidates(page.value)
    ensures Fetched(page)[k].id == Fetched(page)[k].url && StartsWith(Fetched(page)[k].url, "http")
  {
    var ps := Candidates(page.value);
    DedupKeepsFirst(ps);
    var q := Dedup(ps)[k];
    var i := FirstIndex(ps, q.url);
    assert q == ps[i];
    CandidatesWellFormed(page.value, q);
  }

  // ---------------------------------------------------------------------
  // New posts

  function Ids(ps: seq<Post>): set<string> {
    set p | p in ps :: p.id
  }

  /**
   * The posts of a batch that are new: not known before the batch, and not
   * already taken earlier in the batch (the known set grows as the batch is read).
   */
  function NewPosts(ps: seq<Post>, known: set<string>): (added: seq<Post>)
  {
    if |ps| == 0 then []
    else
      var init := ps[..|ps| - 1];
      var p := ps[|ps| - 1];
      if p.id in known + Ids(init) then NewPosts(init, known) else NewPosts(init, known) + [p]
  }

  /** Reading one more post of the batch. */
  lemma NewPostsStep(ps: seq<Post>, p: Post, known: set<string>)
    ensures NewPosts(ps + [p], known)
      == if p.id in known + Ids(ps) then NewPosts(ps, known) else NewPosts(ps, known) + [p]
  {
    assert (ps + [p])[..|ps|] == ps;
  }

  /** Reading one more post while the known set holds the identifiers read so far. */
  lemma NewPostsRead(ps: seq<Post>, p: Post, known0: set<string>, known: set<string>)
    requires known == known0 + Ids(ps)
    ensures known + {p.id} == known0 + Ids(ps + [p])
    ensures p.id in known ==> NewPosts(ps + [p], known0) == NewPosts(ps, known0)
    ensures p.id !in known ==> NewPosts(ps + [p], known0) == NewPosts(ps, known0) + [p]
  {
    NewPostsStep(ps, p, known0);
    IdsAppend(ps, p);
  }

  /**
   * The new posts come from the batch and were not known; their identifiers
   * are exactly the batch's identifiers that were not known, each once.
   */
  lemma {:induction false} NewPostsSound(ps: seq<Post>, known: set<string>)
    ensures forall p :: p in NewPosts(ps, known) ==> p in ps && p.id !in known
    ensures Ids(NewPosts(ps, known)) == Ids(ps) - known
    ensures forall i, j :: 0 <= i < j < |NewPosts(ps, known)| ==> NewPosts(ps, known)[i].id != NewPosts(ps, known)[j].id
    decreases |ps|
  {
    if |ps| > 0 {
      var init := ps[..|ps| - 1];
      var p := ps[|ps| - 1];
      var prev := NewPosts(init, known);
      NewPostsSound(init, known);
      IdsAppend(init, p);
      assert ps == init + [p];
      if p.id !in known + Ids(init) {
        IdsAppend(prev, p);
        forall i | 0 <= i < |prev| ensures prev[i].id != p.id {
          assert prev[i] in prev;
        }
      }
    }
  }

  lemma IdsAppend(ps: seq<Post>, p: Post)
    ensures Ids(ps + [p]) == Ids(ps) + {p.id}
  {
    forall q | q in ps ensures q in ps + [p] {
    }
  }

  /** A batch whose identifiers are all known holds nothing new. */
  lemma {:induction false} NothingNewWhenKnown(ps: seq<Post>, known: set<string>)
    requires Ids(ps) <= known
    ensures NewPosts(ps, known) == []
    decreases |ps|
  {
    if |ps| > 0 {
      var init := ps[..|ps| - 1];
      IdsAppend(init, ps[|ps| - 1]);
      assert ps == init + [ps[|ps| - 1]];
      NothingNewWhenKnown(init, known);
    }
  }

  /** Once a batch's identifiers are known, the same batch holds nothing new. */
  lemma NewPostsIdempotent(ps: seq<Post>, known: set<string>)
    ensures NewPosts(ps, known + Ids(ps)) == []
  {
    NothingNewWhenKnown(ps, known + Ids(ps));
  }

  /** The batch posts not known before, in batch order. */
  function Unknown(ps: seq<Post>, known: set<string>): (r: seq<Post>)
    ensures forall p :: p in r <==> p in ps && p.id !in known
  {
    if |ps| == 0 then []
    else if ps[0].id in known then Unknown(ps[1..], known)
    else [ps[0]] + Unknown(ps[1..], known)
  }

  /** For a batch without repeated identifiers, the new posts are exactly the unknown ones, in order. */
  lemma {:induction false} NewPostsOfDistinct(ps: seq<Post>, known: set<string>)
    requires forall i, j :: 0 <= i < j < |ps| ==> ps[i].id != ps[j].id
    ensures NewPosts(ps, known) == Unknown(ps, known)
    decreases |ps|
  {
    if |ps| > 0 {
      var init := ps[..|ps| - 1];
      var p := ps[|ps| - 1];
      assert ps == init + [p];
      forall i, j | 0 <= i < j < |init| ensures init[i].id != init[j].id {
        assert init[i] == ps[i] && init[j] == ps[j];
      }
      NewPostsOfDistinct(init, known);
      assert p.id !in Ids(init) by {
        forall q | q in init ensures q.id != p.id {
          var i :| 0 <= i < |init| && init[i] == q;
          assert ps[i] == q;
        }
      }
      UnknownAppend(init, p, known);
    }
  }

  /**
   * A fetched batch never repeats an identifier, so its new posts are
   * exactly the fetched posts that were not known, in page order.
   */
  lemma FetchedNewPostsAreUnknown(page: Option<Page>, known: set<string>)
    ensures NewPosts(Fetched(page), known) == Unknown(Fetched(page), known)
  {
    var ps := Fetched(page);
    FetchedUnique(page);
    forall i, j | 0 <= i < j < |ps| ensures ps[i].id != ps[j].id {
      FetchedWellFormed(page, i);
      FetchedWellFormed(page, j);
    }
    NewPostsOfDistinct(ps, known);
  }

  lemma {:induction false} UnknownAppend(ps: seq<Post>, p: Post, known: set<string>)
    ensures Unknown(ps + [p], known) == Unknown(ps, known) + (if p.id in known then [] else [p])
    decreases |ps|
  {
    if |ps| > 0 {
      assert (ps + [p])[1..] == ps[1..] + [p];
      UnknownAppend(ps[1..], p, known);
    }
  }

  // ---------------------------------------------------------------------
  // What is sent and listed

  /** Python's `s[:n]`: a negative `n` counts from the end. */
  function PyPrefix(s: string, n: int): (r: string)
  {
    if n >= 0 then (if n < |s| then s[..n] else s)
    else if |s| + n > 0 then s[..|s| + n] else []
  }

  /** `s[:n]` is a prefix of `s`: its first `n` characters, or all but the last `-n`. */
  lemma PyPrefixShape(s: string, n: int)
    ensures |PyPrefix(s, n)| <= |s| && PyPrefix(s, n) == s[..|PyPrefix(s, n)|]
    ensures n >= 0 ==> |PyPrefix(s, n)| == if n < |s| then n else |s|
    ensures n < 0 ==> |PyPrefix(s, n)| == if |s| + n > 0 then |s| + n else 0
  {
  }

  /** A title longer than the limit is cut to the limit and marked with `...`. */
  function DisplayTitle(title: string, maxLen: int): (shown: string)
  {
    if |title| > maxLen then PyPrefix(title, maxLen) + "..." else title
  }

  /**
   * A title within the limit is shown as it is; a longer one is shown as a
   * prefix of it followed by `...`, and with a non-negative limit that
   * prefix is exactly the limit long.
   */
  lemma DisplayTitleShape(title: string, maxLen: int)
    ensures |title| <= maxLen ==> DisplayTitle(title, maxLen) == title
    ensures |title| > maxLen ==>
      var shown := DisplayTitle(title, maxLen);
      |shown| >= 3 && shown[|shown| - 3..] == "..." && StartsWith(title, shown[..|shown| - 3])
    ensures 0 <= maxLen < |title| ==> |DisplayTitle(title, maxLen)| == maxLen + 3
  {
    PyPrefixShape(title, maxLen);
    if |title| > maxLen {
      var cut := PyPrefix(title, maxLen);
      assert (cut + "...")[..|cut|] == cut;
    }
  }

  /** The header and separators of a notification. */
  const NoticeHead: string := "\U{1F195} Unikorn论坛新帖子\n\n\U{1F4DD} "
  const LinkMark: string := "\n\U{1F517} "

  /** The notification for one post. */
  function Message(p: Post, maxLen: int): (m: string)
  {
    NoticeHead + DisplayTitle(p.title, maxLen) + LinkMark + p.url
  }

  /** A notification starts with the header and ends with the post's address. */
  lemma MessageShape(p: Post, maxLen: int)
    ensures StartsWith(Message(p, maxLen), NoticeHead)
    ensures |p.url| <= |Message(p, maxLen)| && Message(p, maxLen)[|Message(p, maxLen)| - |p.url|..] == p.url
  {
    var m := Message(p, maxLen);
    assert m[..|NoticeHead|] == NoticeHead;
  }

  /** The conversation a group's messages go to. */
  function Origin(group: string): (o: string)
  {
    "qq_group_" + group
  }

  /** Different groups get different conversations. */
  lemma OriginInjective(g1: string, g2: string)
    requires Origin(g1) == Origin(g2)
    ensures g1 == g2
  {
    assert g1 == Origin(g1)[9..];
    assert g2 == Origin(g2)[9..];
  }

  /** One send: where, what, and whether the platform accepted it. */
  datatype Attempt = Attempt(origin: string, message: string, delivered: bool)

  /** The sends for one post, one per group in order, each with its own outcome. */
  function PostAttempts(p: Post, groups: seq<string>, maxLen: int, accept: (string, string) -> bool): (r: seq<Attempt>)
  {
    seq(|groups|, j requires 0 <= j < |groups| =>
      Attempt(Origin(groups[j]), Message(p, maxLen), accept(Origin(groups[j]), Message(p, maxLen))))
  }

  /** The sends for a list of posts, post by post. */
  function Attempts(posts: seq<Post>, groups: seq<string>, maxLen: int, accept: (string, string) -> bool): (r: seq<Attempt>)
  {
    if |posts| == 0 then []
    else Attempts(posts[..|posts| - 1], groups, maxLen, accept) + PostAttempts(posts[|posts| - 1], groups, maxLen, accept)
  }

  lemma {:induction false} AttemptsLength(posts: seq<Post>, groups: seq<string>, maxLen: int, accept: (string, string) -> bool)
    ensures |Attempts(posts, groups, maxLen, accept)| == |posts| * |groups|
    decreases |posts|
  {
    if |posts| > 0 {
      AttemptsLength(posts[..|posts| - 1], groups, maxLen, accept);
      assert |posts| * |groups| == (|posts| - 1) * |groups| + |groups|;
    }
  }

  /** The send for post `i` and group `j` sits at position `i * |groups| + j`, whatever the outcome of the others. */
  lemma {:induction false} AttemptAt(posts: seq<Post>, groups: seq<string>, maxLen: int, accept: (string, string) -> bool, i: nat, j: nat)
    requires i < |posts| && j < |groups|
    ensures i * |groups| + j < |Attempts(posts, groups, maxLen, accept)|
    ensures Attempts(posts, groups, maxLen, accept)[i * |groups| + j] == PostAttempts(posts[i], groups, maxLen, accept)[j]
    decreases |posts|, 1
  {
    if i < |posts| - 1 {
      AttemptAtEarlier(posts, groups, maxLen, accept, i, j);
    } else {
      AttemptAtLast(posts, groups, maxLen, accept, j);
    }
  }

  /**
   * The send for post `i` and group `j` goes to that group's conversation,
   * carries that post's notification, and records the platform's answer to
   * exactly that pair.
   */
  lemma AttemptFor(posts: seq<Post>, groups: seq<string>, maxLen: int, accept: (string, string) -> bool, i: nat, j: nat)
    requires i < |posts| && j < |groups|
    ensures i * |groups| + j < |Attempts(posts, groups, maxLen, accept)|
    ensures Attempts(posts, groups, maxLen, accept)[i * |groups| + j]
         == Attempt(Origin(groups[j]), Message(posts[i], maxLen), accept(Origin(groups[j]), Message(posts[i], maxLen)))
  {
    AttemptAt(posts, groups, maxLen, accept, i, j);
  }

  lemma {:induction false} AttemptAtEarlier(posts: seq<Post>, groups: seq<string>, maxLen: int, accept: (string, string) -> bool, i: nat, j: nat)
    requires i < |posts| - 1 && j < |groups|
    ensures i * |groups| + j < |Attempts(posts, groups, maxLen, accept)|
    ensures Attempts(posts, groups, maxLen, accept)[i * |groups| + j] == PostAttempts(posts[i], groups, maxLen, accept)[j]
    decreases |posts|, 0
  {
    var init := posts[..|posts| - 1];
    var a := Attempts(init, groups, maxLen, accept);
    var b := PostAttempts(posts[|posts| - 1], groups, maxLen, accept);
    assert Attempts(posts, groups, maxLen, accept) == a + b;
    AttemptAt(init, groups, maxLen, accept, i, j);
    assert init[i] == posts[i];
    var k := i * |groups| + j;
    RowStart(i, |groups|);
    ConcatLeft(a, b, k);
  }

  lemma AttemptAtLast(posts: seq<Post>, groups: seq<string>, maxLen: int, accept: (string, string) -> bool, j: nat)
    requires 0 < |posts| && j < |groups|
    ensures (|posts| - 1) * |groups| + j < |Attempts(posts, groups, maxLen, accept)|
    ensures Attempts(posts, groups, maxLen, accept)[(|posts| - 1) * |groups| + j]
      == PostAttempts(posts[|posts| - 1], groups, maxLen, accept)[j]
  {
    var init := posts[..|posts| - 1];
    var a := Attempts(init, groups, maxLen, accept);
    var b := PostAttempts(posts[|posts| - 1], groups, maxLen, accept);
    assert Attempts(posts, groups, maxLen, accept) == a + b;
    AttemptsLength(init, groups, maxLen, accept);
    ConcatRight(a, b, j);
  }

  lemma ConcatLeft(a: seq<Attempt>, b: seq<Attempt>, k: nat)
    requires k < |a|
    ensures k < |a + b| && (a + b)[k] == a[k]
  {
  }

  lemma ConcatRight(a: seq<Attempt>, b: seq<Attempt>, j: nat)
    requires j < |b|
    ensures |a| + j < |a + b| && (a + b)[|a| + j] == b[j]
  {
  }

  lemma RowStart(i: nat, m: nat)
    ensures 0 <= i * m
  {
  }

  /** Without target groups nothing is sent. */
  lemma NoGroupsNoAttempts(posts: seq<Post>, maxLen: int, accept: (string, string) -> bool)
    ensures Attempts(posts, [], maxLen, accept) == []
  {
    AttemptsLength(posts, [], maxLen, accept);
  }

  /** The listing of `/unikorn posts`: at most five entries, numbered from one, and how many were left out. */
  datatype Entry = Entry(number: nat, title: string, url: string)

  datatype Listing = NoPosts | Shown(entries: seq<Entry>, remaining: nat)
}
