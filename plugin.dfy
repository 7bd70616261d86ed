/**
 * The plugin object: the set of post identifiers it has seen, the data file
 * that keeps that set between runs, and the sends it has made.  The forum
 * page, the data file's readability and writability, and the chat
 * platform's answer to each send are given to the operations as inputs.
 */
module NewsPlugin {
  import opened Wrappers
  import opened Posts

  /** The plugin's settings; a missing entry takes its default. */
  datatype Config = Config(targetGroups: Option<seq<string>>, maxTitleLength: Option<int>)

  /** `target_groups`, no groups by default. */
  function TargetGroups(c: Config): seq<string> {
    if c.targetGroups.Some? then c.targetGroups.value else []
  }

  /** `max_title_length`, 50 by default. */
  function MaxTitleLength(c: Config): int {
    if c.maxTitleLength.Some? then c.maxTitleLength.value else 50
  }

  /** The listing shows this many posts at most. */
  const MaxListed: nat := 5

  /** The data file: a JSON object with an optional `known_posts` list, or something that cannot be read as one. */
  datatype DataFile = Json(knownPosts: Option<seq<string>>) | Unreadable

  /** The identifiers a data file yields when loaded, or nothing when it is absent or unreadable. */
  function Stored(file: Option<DataFile>): (known: Option<set<string>>)
    ensures known.Some? <==> file.Some? && file.value.Json?
    ensures known.Some? ==> forall id :: id in known.value <==>
      file.value.knownPosts.Some? && id in file.value.knownPosts.value
  {
    match file
    case None => None
    case Some(Unreadable) => None
    case Some(Json(ids)) => Some(if ids.None? then {} else set id | id in ids.value)
  }

  class UnikornNewsPlugin {
    const config: Config
    /** The address of the forum's post list. */
    const forumUrl: string
    /** The identifiers of the posts already seen. */
    var knownPosts: set<string>
    /** The data file, absent when `None`. */
    var dataFile: Option<DataFile>
    /** Every send made so far, in order. */
    var sent: seq<Attempt>

    constructor(config: Config, dataFile: Option<DataFile>)
      ensures this.config == config && this.dataFile == dataFile
      ensures forumUrl == "https://unikorn.axfff.com/forum"
      ensures knownPosts == {} && sent == []
    {
      this.config := config;
      this.forumUrl := "https://unikorn.axfff.com/forum";
      this.knownPosts := {};
      this.dataFile := dataFile;
      this.sent := [];
    }

    /** `load_known_posts`: a readable data file replaces the known set; otherwise it stays. */
    method LoadKnownPosts()
      modifies this
      ensures Stored(old(dataFile)).Some? ==> knownPosts == Stored(old(dataFile)).value
      ensures Stored(old(dataFile)).None? ==> knownPosts == old(knownPosts)
      ensures dataFile == old(dataFile) && sent == old(sent)
    {
      var stored := Stored(dataFile);
      if stored.Some? {
        knownPosts := stored.value;
      }
    }

    /**
     * `save_known_posts`: the known set, listed once per identifier, is
     * written to the data file when it is writable; a failed write leaves
     * everything as it was.
     */
    method SaveKnownPosts(writable: bool)
      modifies this
      ensures writable ==> Stored(dataFile) == Some(knownPosts)
      ensures writable ==>
        dataFile.Some? && dataFile.value.Json? && dataFile.value.knownPosts.Some?
        && forall i, j :: 0 <= i < j < |dataFile.value.knownPosts.value| ==>
             dataFile.value.knownPosts.value[i] != dataFile.value.knownPosts.value[j]
      ensures !writable ==> dataFile == old(dataFile)
      ensures knownPosts == old(knownPosts) && sent == old(sent)
    {
      var rest := knownPosts;
      var listed: seq<string> := [];
      while rest != {}
        invariant rest <= knownPosts
        invariant forall id :: id in knownPosts <==> id in listed || id in rest
        invariant forall id :: id in listed ==> id !in rest
        invariant forall i, j :: 0 <= i < j < |listed| ==> listed[i] != listed[j]
        decreases |rest|
      {
        var id :| id in rest;
        listed := listed + [id];
        rest := rest - {id};
      }
      if writable {
        dataFile := Some(Json(Some(listed)));
        assert Stored(dataFile).value == knownPosts;
      }
    }

    /**
     * `fetch_forum_posts`: no posts when the page could not be had;
     * otherwise the container strategy, the fallback strategy when it found
     * nothing, and then one post per address.
     */
    method FetchForumPosts(page: Option<Page>) returns (posts: seq<Post>)
      ensures posts == Fetched(page)
    {
      if page.None? {
        return [];
      }
      var elements := page.value.elements;
      var found: seq<Post> := [];
      for i := 0 to |elements|
        invariant found == ContainerPosts(elements[..i])
      {
        var e := elements[i];
        assert elements[..i + 1] == elements[..i] + [e];
        ContainerPostsStep(elements[..i], e);
        if e.Some? && e.value.href != [] {
          var title := e.value.title;
          if title != [] && |title| > 3 {
            var url := NormalizeHref(e.value.href);
            found := found + [Post(title, url, url)];
          }
        }
      }
      assert elements[..|elements|] == elements;
      if found == [] {
        var links := page.value.links;
        for i := 0 to |links|
          invariant found == FallbackPosts(links[..i])
        {
          var link := links[i];
          assert links[..i + 1] == links[..i] + [link];
          FallbackPostsStep(links[..i], link);
          if FallbackKeeps(link) {
            var url := NormalizeHref(link.href);
            found := found + [Post(link.title, url, url)];
          }
        }
        assert links[..|links|] == links;
      }
      var seen: set<string> := {};
      posts := [];
      for k := 0 to |found|
        invariant posts == Dedup(found[..k])
        invariant seen == Urls(found[..k])
      {
        var post := found[k];
        assert found[..k + 1] == found[..k] + [post];
        DedupRead(found[..k], post, seen);
        if post.url !in seen {
          seen := seen + {post.url};
          posts := posts + [post];
        }
      }
      assert found[..|found|] == found;
    }

    /**
     * `check_for_new_posts`: the fetched posts whose identifier is not yet
     * known are the new ones, and their identifiers become known one by
     * one; only when there is a new post are they announced and the known
     * set saved.
     */
    method CheckForNewPosts(page: Option<Page>, accept: (string, string) -> bool, writable: bool)
      returns (added: seq<Post>)
      modifies this
      ensures added == NewPosts(Fetched(page), old(knownPosts))
      ensures knownPosts == old(knownPosts) + Ids(Fetched(page)) && old(knownPosts) <= knownPosts
      ensures added == [] ==> sent == old(sent) && dataFile == old(dataFile)
      ensures added != [] ==> sent == old(sent) + Attempts(added, TargetGroups(config), MaxTitleLength(config), accept)
      ensures added != [] && writable ==> Stored(dataFile) == Some(knownPosts)
      ensures !writable ==> dataFile == old(dataFile)
    {
      var posts := FetchForumPosts(page);
      added := RecordNewPosts(posts);
      if added != [] {
        NotifyNewPosts(added, accept);
        SaveKnownPosts(writable);
      }
    }

    /**
     * The loop of `check_for_new_posts`: a post whose identifier is not yet
     * known is new, and its identifier becomes known at once.
     */
    method RecordNewPosts(posts: seq<Post>) returns (added: seq<Post>)
      modifies this
      ensures added == NewPosts(posts, old(knownPosts))
      ensures knownPosts == old(knownPosts) + Ids(posts)
      ensures sent == old(sent) && dataFile == old(dataFile)
    {
      added := [];
      for i := 0 to |posts|
        invariant knownPosts == old(knownPosts) + Ids(posts[..i])
        invariant added == NewPosts(posts[..i], old(knownPosts))
        invariant sent == old(sent) && dataFile == old(dataFile)
      {
        var post := posts[i];
        assert posts[..i + 1] == posts[..i] + [post];
        NewPostsRead(posts[..i], post, old(knownPosts), knownPosts);
        if post.id !in knownPosts {
          added := added + [post];
          knownPosts := knownPosts + {post.id};
        }
      }
      assert posts[..|posts|] == posts;
    }

    /**
     * `notify_new_posts`: with no target group nothing is sent; otherwise
     * every post is sent to every group, one send per pair, and a send the
     * platform refuses does not stop the others.
     */
    method NotifyNewPosts(newPosts: seq<Post>, accept: (string, string) -> bool)
      modifies this
      ensures sent == old(sent) + Attempts(newPosts, TargetGroups(config), MaxTitleLength(config), accept)
      ensures TargetGroups(config) == [] ==> sent == old(sent)
      ensures knownPosts == old(knownPosts) && dataFile == old(dataFile)
    {
      var groups := TargetGroups(config);
      var maxLen := MaxTitleLength(config);
      if groups == [] {
        NoGroupsNoAttempts(newPosts, maxLen, accept);
        return;
      }
      for i := 0 to |newPosts|
        invariant sent == old(sent) + Attempts(newPosts[..i], groups, maxLen, accept)
        invariant knownPosts == old(knownPosts) && dataFile == old(dataFile)
      {
        assert newPosts[..i + 1][..i] == newPosts[..i];
        SendToGroups(newPosts[i], groups, maxLen, accept);
      }
      assert newPosts[..|newPosts|] == newPosts;
    }

    /** The inner loop of `notify_new_posts`: one post, sent to each group in turn. */
    method SendToGroups(post: Post, groups: seq<string>, maxLen: int, accept: (string, string) -> bool)
      modifies this
      ensures sent == old(sent) + PostAttempts(post, groups, maxLen, accept)
      ensures knownPosts == old(knownPosts) && dataFile == old(dataFile)
    {
      var message := Message(post, maxLen);
      for j := 0 to |groups|
        invariant sent == old(sent) + PostAttempts(post, groups, maxLen, accept)[..j]
        invariant knownPosts == old(knownPosts) && dataFile == old(dataFile)
      {
        var origin := Origin(groups[j]);
        var delivered := accept(origin, message);
        sent := sent + [Attempt(origin, message, delivered)];
        assert PostAttempts(post, groups, maxLen, accept)[..j + 1]
            == PostAttempts(post, groups, maxLen, accept)[..j] + [Attempt(origin, message, delivered)];
      }
    }

    /**
     * `/unikorn posts`: nothing to list when no post was fetched; otherwise
     * the first five posts, numbered from one with their titles shortened,
     * and the number of posts left out.
     */
    method ListPosts(page: Option<Page>) returns (listing: Listing)
      ensures listing.NoPosts? <==> Fetched(page) == []
      ensures listing.Shown? ==>
        |listing.entries| == (if |Fetched(page)| < MaxListed then |Fetched(page)| else MaxListed)
        && |listing.entries| + listing.remaining == |Fetched(page)|
        && forall k :: 0 <= k < |listing.entries| ==>
             listing.entries[k] == Entry(k + 1, DisplayTitle(Fetched(page)[k].title, MaxTitleLength(config)), Fetched(page)[k].url)
    {
      var posts := FetchForumPosts(page);
      if posts == [] {
        return NoPosts;
      }
      var shown := if |posts| < MaxListed then |posts| else MaxListed;
      var maxLen := MaxTitleLength(config);
      var entries: seq<Entry> := [];
      for i := 0 to shown
        invariant |entries| == i
        invariant forall k :: 0 <= k < i ==> entries[k] == Entry(k + 1, DisplayTitle(posts[k].title, maxLen), posts[k].url)
      {
        entries := entries + [Entry(i + 1, DisplayTitle(posts[i].title, maxLen), posts[i].url)];
      }
      var remaining := if |posts| > MaxListed then |posts| - MaxListed else 0;
      listing := Shown(entries, remaining);
    }
  }
}
