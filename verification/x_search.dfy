/**
 * The X (Twitter) search tool: the tweet id is read from each post's URL
 * with the pattern `(?:twitter\.com|x\.com)\/\w+\/status\/(\d+)`, and only
 * the posts that yield an id are returned, in order.
 */
module XSearch {
  import opened Common
  import opened Strings

  /** The end of the host the pattern starts with at position i: `twitter.com` or `x.com`. */
  function HostEnd(s: string, i: nat): (r: Option<nat>)
    ensures r.Some? ==> i < r.value <= |s|
  {
    if OccursAt(s, "twitter.com", i) then Some(i + 11)
    else if OccursAt(s, "x.com", i) then Some(i + 5)
    else None
  }

  /** The rest of the pattern after the host ending at h: `/`, a handle, `/status/` and the captured digits. */
  function TweetIdAfter(s: string, h: nat): Option<string>
    requires h <= |s|
  {
    if !(h < |s| && s[h] == '/') then None
    else
      var e := RunEnd(s, h + 1, IsWordChar);
      if e == h + 1 || !OccursAt(s, "/status/", e) then None
      else
        var d := RunEnd(s, e + 8, IsDigit);
        if d == e + 8 then None else Some(s[e + 8..d])
  }

  /**
   * The pattern matches at position i: `twitter.com` or `x.com`, `/`, a
   * handle of word characters, `/status/` and the digits that are captured,
   * taken as far as they go.
   */
  function TweetIdAt(s: string, i: nat): Option<string> {
    match HostEnd(s, i)
    case None => None
    case Some(h) => TweetIdAfter(s, h)
  }

  predicate AllWordChars(w: string) {
    forall k :: 0 <= k < |w| ==> IsWordChar(w[k])
  }

  predicate AllDigits(w: string) {
    forall k :: 0 <= k < |w| ==> IsDigit(w[k])
  }

  /**
   * `s` spells a status link at position i: a host, a non-empty handle of
   * word characters, `/status/` and a non-empty run of digits that is not
   * followed by another digit.
   */
  predicate Spells(s: string, i: nat, host: string, handle: string, id: string) {
    && (host == "twitter.com" || host == "x.com")
    && |handle| > 0 && AllWordChars(handle)
    && |id| > 0 && AllDigits(id)
    && var m := host + "/" + handle + "/status/" + id;
       OccursAt(s, m, i) && (i + |m| == |s| || !IsDigit(s[i + |m|]))
  }

  /** The occurrence of a status link at i, split into its five parts. */
  lemma SpellsParts(s: string, i: nat, host: string, handle: string, id: string)
    ensures OccursAt(s, host + "/" + handle + "/status/" + id, i) <==>
      && OccursAt(s, host, i) && OccursAt(s, "/", i + |host|)
      && OccursAt(s, handle, i + |host| + 1)
      && OccursAt(s, "/status/", i + |host| + 1 + |handle|)
      && OccursAt(s, id, i + |host| + 1 + |handle| + 8)
  {
    var h := i + |host|;
    OccursAtConcat(s, host + "/" + handle + "/status/", id, i);
    OccursAtConcat(s, host + "/" + handle, "/status/", i);
    OccursAtConcat(s, host + "/", handle, i);
    OccursAtConcat(s, host, "/", i);
  }

  /** The host and handle of the status link a match at i spells. */
  lemma SpellsOfMatch(s: string, i: nat, id: string) returns (host: string, handle: string)
    requires TweetIdAt(s, i) == Some(id)
    ensures Spells(s, i, host, handle, id)
  {
    host := MatchedHost(s, i);
    var h := i + |host|;
    handle := PartsAfterHost(s, h, id);
    SpellsOfPieces(s, i, host, h, handle, id);
  }

  /** The host the pattern read at i, and where it ends. */
  lemma MatchedHost(s: string, i: nat) returns (host: string)
    requires HostEnd(s, i).Some?
    ensures (host == "twitter.com" || host == "x.com") && OccursAt(s, host, i)
    ensures HostEnd(s, i) == Some(i + |host|)
  {
    if OccursAt(s, "twitter.com", i) {
      host := "twitter.com";
    } else {
      host := "x.com";
    }
  }

  /** What the rest of the pattern read after the host ending at h: the handle it consumed, and the id. */
  lemma PartsAfterHost(s: string, h: nat, id: string) returns (handle: string)
    requires h <= |s| && TweetIdAfter(s, h) == Some(id)
    ensures h < |s| && s[h] == '/'
    ensures |handle| > 0 && AllWordChars(handle) && OccursAt(s, handle, h + 1)
    ensures OccursAt(s, "/status/", h + 1 + |handle|)
    ensures |id| > 0 && AllDigits(id) && OccursAt(s, id, h + 1 + |handle| + 8)
    ensures h + 1 + |handle| + 8 + |id| == |s| || !IsDigit(s[h + 1 + |handle| + 8 + |id|])
  {
    var e := RunEnd(s, h + 1, IsWordChar);
    handle := s[h + 1..e];
    var d := RunEnd(s, e + 8, IsDigit);
    assert id == s[e + 8..d];
  }

  /** The five parts, in place one after the other (the host ending at h), spell a status link. */
  lemma SpellsOfPieces(s: string, i: nat, host: string, h: nat, handle: string, id: string)
    requires (host == "twitter.com" || host == "x.com") && OccursAt(s, host, i) && h == i + |host|
    requires h < |s| && s[h] == '/'
    requires |handle| > 0 && AllWordChars(handle) && OccursAt(s, handle, h + 1)
    requires OccursAt(s, "/status/", h + 1 + |handle|)
    requires |id| > 0 && AllDigits(id) && OccursAt(s, id, h + 1 + |handle| + 8)
    requires h + 1 + |handle| + 8 + |id| == |s| || !IsDigit(s[h + 1 + |handle| + 8 + |id|])
    ensures Spells(s, i, host, handle, id)
  {
    assert s[h..h + 1] == "/";
    SpellsParts(s, i, host, handle, id);
  }

  /** A host that occurs at i is the one the pattern's alternation takes. */
  lemma HostEndOf(s: string, i: nat, host: string)
    requires (host == "twitter.com" || host == "x.com") && OccursAt(s, host, i)
    ensures HostEnd(s, i) == Some(i + |host|)
  {
    if host == "x.com" {
      assert s[i] == host[0] == 'x';
      assert !OccursAt(s, "twitter.com", i);
    }
  }

  /** The rest of a spelled status link after its host yields the id. */
  lemma AfterHostOf(s: string, h: nat, handle: string, id: string)
    requires h < |s| && s[h] == '/'
    requires |handle| > 0 && AllWordChars(handle) && OccursAt(s, handle, h + 1)
    requires OccursAt(s, "/status/", h + 1 + |handle|)
    requires |id| > 0 && AllDigits(id) && OccursAt(s, id, h + 1 + |handle| + 8)
    requires h + 1 + |handle| + 8 + |id| == |s| || !IsDigit(s[h + 1 + |handle| + 8 + |id|])
    ensures TweetIdAfter(s, h) == Some(id)
  {
    var e := h + 1 + |handle|;
    assert s[e] == "/status/"[0];
    RunEndOver(s, h + 1, handle, IsWordChar);
    RunEndOver(s, e + 8, id, IsDigit);
  }

  lemma MatchOfSpells(s: string, i: nat, host: string, handle: string, id: string)
    requires Spells(s, i, host, handle, id)
    ensures TweetIdAt(s, i) == Some(id)
  {
    SpellsParts(s, i, host, handle, id);
    HostEndOf(s, i, host);
    var h := i + |host|;
    assert s[h] == "/"[0];
    AfterHostOf(s, h, handle, id);
  }

  /** The pattern matches at i, capturing `id`, exactly when `s` spells a status link with that id there. */
  lemma TweetIdAtSpells(s: string, i: nat, id: string)
    ensures TweetIdAt(s, i) == Some(id) <==> exists host, handle :: Spells(s, i, host, handle, id)
  {
    if TweetIdAt(s, i) == Some(id) {
      var host, handle := SpellsOfMatch(s, i, id);
    }
    if exists host, handle :: Spells(s, i, host, handle, id) {
      var host, handle :| Spells(s, i, host, handle, id);
      MatchOfSpells(s, i, host, handle, id);
    }
  }

  /** `extractTweetId`: the capture of the leftmost match at or after `from`, or null. */
  function ExtractTweetId(s: string, from: nat := 0): (r: Option<string>)
    ensures r.Some? ==> exists i :: (from <= i && TweetIdAt(s, i) == r
      && forall j :: from <= j < i ==> TweetIdAt(s, j).None?)
    ensures r.None? ==> forall i :: from <= i ==> TweetIdAt(s, i).None?
    decreases |s| - from
  {
    if from > |s| then None
    else if TweetIdAt(s, from).Some? then TweetIdAt(s, from)
    else ExtractTweetId(s, from + 1)
  }

  /** An extracted id is a non-empty run of digits, spelled in the URL after a host, a handle and `/status/`. */
  lemma ExtractedIdShape(url: string, id: string)
    ensures ExtractTweetId(url) == Some(id) ==>
      && |id| > 0 && AllDigits(id)
      && exists i, host, handle :: Spells(url, i, host, handle, id)
  {
    if ExtractTweetId(url) == Some(id) {
      var i :| TweetIdAt(url, i) == Some(id);
      var host, handle := SpellsOfMatch(url, i, id);
    }
  }

  /** A URL that spells a status link somewhere yields an id. */
  lemma SpelledUrlYieldsId(url: string, i: nat, host: string, handle: string, id: string)
    requires Spells(url, i, host, handle, id)
    ensures ExtractTweetId(url).Some?
  {
    MatchOfSpells(url, i, host, handle, id);
  }

  /** A post as the search provider returns it: the fields the tool reads, and every other field in `rest`. */
  datatype Post = Post(
    id: Option<string>, url: string, title: Option<string>, text: Option<string>,
    highlights: seq<string>, publishedDate: Option<string>, author: Option<string>,
    rest: map<string, Json>)

  /** The key a returned post sets itself; a provider field of that name is overridden. */
  const TweetIdKey := "tweetId"

  /** A returned post: the provider's fields, the tweet id and a title defaulting to ''. */
  datatype Tweet = Tweet(
    id: Option<string>, url: string, title: string, text: Option<string>,
    highlights: seq<string>, publishedDate: Option<string>, author: Option<string>,
    rest: map<string, Json>, tweetId: string)

  function TweetOf(p: Post): Option<Tweet> {
    match ExtractTweetId(p.url)
    case None => None
    case Some(tweetId) =>
      Some(Tweet(p.id, p.url, Or(p.title, ""), p.text, p.highlights, p.publishedDate, p.author, p.rest - {TweetIdKey}, tweetId))
  }

  /** The tool's reduce: push each post that yields a tweet id. */
  method CollectTweets(posts: seq<Post>) returns (acc: seq<Tweet>)
    ensures acc == FilterMap(posts, TweetOf)
  {
    acc := [];
    var i := 0;
    while i < |posts|
      invariant 0 <= i <= |posts|
      invariant acc == FilterMap(posts[..i], TweetOf)
    {
      var post := posts[i];
      assert posts[..i + 1][..i] == posts[..i];
      var tweetId := ExtractTweetId(post.url);
      if tweetId.Some? {
        acc := acc + [Tweet(post.id, post.url, Or(post.title, ""), post.text, post.highlights,
                            post.publishedDate, post.author, post.rest - {TweetIdKey}, tweetId.value)];
      }
      i := i + 1;
    }
    assert posts[..i] == posts;
  }

  /**
   * The returned posts are exactly the posts whose URL yields an id, in input
   * order, each with that id, its own URL and other fields, and its title or ''.
   */
  lemma TweetsSelected(posts: seq<Post>)
    ensures var r := FilterMap(posts, TweetOf);
      var idx := KeptPositions(posts, TweetOf);
      && |r| <= |posts| && |idx| == |r| && Increasing(idx)
      && (forall i :: 0 <= i < |posts| ==> (ExtractTweetId(posts[i].url).Some? <==> i in idx))
      && forall j :: 0 <= j < |r| ==>
        && idx[j] < |posts|
        && r[j].tweetId == ExtractTweetId(posts[idx[j]].url).value
        && r[j].url == posts[idx[j]].url
        && r[j].title == Or(posts[idx[j]].title, "")
        && r[j].text == posts[idx[j]].text
        && r[j].id == posts[idx[j]].id && r[j].highlights == posts[idx[j]].highlights
        && r[j].publishedDate == posts[idx[j]].publishedDate && r[j].author == posts[idx[j]].author
        && r[j].rest == posts[idx[j]].rest - {TweetIdKey}
  {
    KeptPositionsExact(posts, TweetOf);
  }

  /** The tool's result; a provider error is rethrown. */
  method Execute(response: Result<seq<Post>, string>) returns (r: Result<seq<Tweet>, string>)
    ensures response.Err? ==> r == Err(response.error)
    ensures response.Ok? ==> r.Ok? && r.value == FilterMap(response.value, TweetOf)
  {
    if response.Err? {
      return Err(response.error);
    }
    var tweets := CollectTweets(response.value);
    r := Ok(tweets);
  }
}
