/**
 * The web-search tool: per-query option resolution with positional fallback,
 * the result and image shaping of each provider answer, image URL
 * sanitising, and the progress events written around the searches.
 *
 * The search provider and the image check (a HEAD request that must answer
 * OK with an `image/` content type) are parameters: `search` gives the
 * provider's answer to a request, `valid` the check's verdict on a URL.
 */
module WebSearch {
  import opened Common
  import opened Strings

  datatype Topic = General | News
  datatype Depth = Basic | Advanced

  /** The tool's arguments after schema validation. */
  datatype SearchArgs = SearchArgs(
    queries: seq<string>, maxResults: seq<int>, topics: seq<Topic>,
    searchDepth: seq<Depth>, excludeDomains: seq<string>)

  /** The options sent to the provider for one query. */
  datatype SearchRequest = SearchRequest(
    query: string, topic: Topic, days: Option<int>, maxResults: int, searchDepth: Depth,
    includeAnswer: bool, includeImages: bool, includeImageDescriptions: bool,
    excludeDomains: seq<string>)

  /** `topics[i] || topics[0] || 'general'` (every topic name is a non-empty string). */
  function TopicFor(topics: seq<Topic>, i: nat): Topic {
    if i < |topics| then topics[i] else if |topics| > 0 then topics[0] else General
  }

  /** `searchDepth[i] || searchDepth[0] || 'basic'`. */
  function DepthFor(depths: seq<Depth>, i: nat): Depth {
    if i < |depths| then depths[i] else if |depths| > 0 then depths[0] else Basic
  }

  /** Query i has a count of its own: present and non-zero. */
  predicate OwnCount(counts: seq<int>, i: nat) {
    i < |counts| && counts[i] != 0
  }

  /** `maxResults[i] || maxResults[0] || 10`: a missing or zero count falls through. */
  function MaxResultsFor(counts: seq<int>, i: nat): int {
    if OwnCount(counts, i) then counts[i]
    else if |counts| > 0 && counts[0] != 0 then counts[0]
    else 10
  }

  /** `topics[i] === 'news'`: only the query's own topic counts, not the fallback. */
  predicate IsNewsQuery(topics: seq<Topic>, i: nat) {
    i < |topics| && topics[i] == News
  }

  function RequestFor(args: SearchArgs, i: nat): SearchRequest
    requires i < |args.queries|
  {
    SearchRequest(
      query := args.queries[i],
      topic := TopicFor(args.topics, i),
      days := if IsNewsQuery(args.topics, i) then Some(7) else None,
      maxResults := MaxResultsFor(args.maxResults, i),
      searchDepth := DepthFor(args.searchDepth, i),
      includeAnswer := true,
      includeImages := true,
      includeImageDescriptions := true,
      excludeDomains := args.excludeDomains)
  }

  /**
   * The request for query i: it carries the query and the shared exclusions;
   * topic, depth and count are the query's own, else the first one, else the
   * default (a zero count counts as missing, so the count is never zero);
   * the 7-day window is
   * set exactly when the query's own topic is news, so a news topic inherited
   * from `topics[0]` has no window.
   */
  lemma RequestResolution(args: SearchArgs, i: nat)
    requires i < |args.queries|
    ensures var req := RequestFor(args, i);
      && req.query == args.queries[i]
      && req.excludeDomains == args.excludeDomains
      && req.maxResults != 0
      && (OwnCount(args.maxResults, i) ==> req.maxResults == args.maxResults[i])
      && (i < |args.topics| ==> req.topic == args.topics[i])
      && (|args.topics| <= i && |args.topics| > 0 ==> req.topic == args.topics[0])
      && (args.topics == [] ==> req.topic == General)
      && (i < |args.searchDepth| ==> req.searchDepth == args.searchDepth[i])
      && (|args.searchDepth| <= i && |args.searchDepth| > 0 ==> req.searchDepth == args.searchDepth[0])
      && (args.searchDepth == [] ==> req.searchDepth == Basic)
      && (!OwnCount(args.maxResults, i) && |args.maxResults| > 0 && args.maxResults[0] != 0 ==> req.maxResults == args.maxResults[0])
      && (!OwnCount(args.maxResults, i) && (args.maxResults == [] || args.maxResults[0] == 0) ==> req.maxResults == 10)
      && (req.days.Some? <==> (i < |args.topics| && args.topics[i] == News))
      && (req.days.Some? ==> req.days == Some(7) && req.topic == News)
      && (req.topic == News && req.days.None? ==> i >= |args.topics| && args.topics[0] == News)
  {
  }

  datatype RawResult = RawResult(
    url: string, title: string, content: string, rawContent: Option<string>, publishedDate: Option<string>)

  datatype WebResult = WebResult(
    url: string, title: string, content: string, rawContent: Option<string>, publishedDate: Option<string>)

  datatype RawImage = RawImage(url: string, description: Option<string>)

  datatype Image = Image(url: string, description: string)

  datatype SearchData = SearchData(results: seq<RawResult>, images: seq<RawImage>)

  /** The provider's answer to one request: data, or a rejection. */
  datatype SearchOutcome = Answered(data: SearchData) | Failed(reason: string)

  datatype SearchEntry = SearchEntry(query: string, results: seq<WebResult>, images: seq<Image>)

  datatype WebSearchOutput = WebSearchOutput(searches: seq<SearchEntry>)

  /** `url.replace(/\s+/g, '%20')`: every run of whitespace becomes one `%20`. */
  function Sanitize(s: string): (r: string)
    ensures NoWhitespace(r)
    decreases |s|
  {
    if s == [] then []
    else if IsWhitespace(s[0]) then "%20" + Sanitize(DropWhitespace(s))
    else [s[0]] + Sanitize(s[1..])
  }

  /** A URL without whitespace is left as it is. */
  lemma {:induction false} SanitizeKeepsClean(s: string)
    requires NoWhitespace(s)
    ensures Sanitize(s) == s
  {
    if s != [] {
      SanitizeKeepsClean(s[1..]);
      assert s == [s[0]] + s[1..];
    }
  }

  /** Sanitising twice is sanitising once. */
  lemma SanitizeIdempotent(s: string)
    ensures Sanitize(Sanitize(s)) == Sanitize(s)
  {
    SanitizeKeepsClean(Sanitize(s));
  }

  /** A character that is not whitespace is kept as it is. */
  lemma SanitizeKeeps(c: char, rest: string)
    requires !IsWhitespace(c)
    ensures Sanitize([c] + rest) == [c] + Sanitize(rest)
  {
    assert ([c] + rest)[1..] == rest;
  }

  lemma {:induction false} DropWhitespaceRun(w: string, b: string)
    requires forall k :: 0 <= k < |w| ==> IsWhitespace(w[k])
    requires b == [] || !IsWhitespace(b[0])
    ensures DropWhitespace(w + b) == b
  {
    if w != [] {
      assert (w + b)[1..] == w[1..] + b;
      DropWhitespaceRun(w[1..], b);
    }
  }

  /**
   * A maximal whitespace run becomes exactly one `%20`, and the text before it
   * is kept: with `a` free of whitespace and `b` not starting with
   * whitespace, `a + run + b` sanitises to `a + "%20" + Sanitize(b)`.
   */
  lemma {:induction false} SanitizeRun(a: string, w: string, b: string)
    requires NoWhitespace(a)
    requires |w| > 0 && forall k :: 0 <= k < |w| ==> IsWhitespace(w[k])
    requires b == [] || !IsWhitespace(b[0])
    ensures Sanitize(a + w + b) == a + "%20" + Sanitize(b)
  {
    if a == [] {
      assert a + w + b == w + b;
      DropWhitespaceRun(w, b);
    } else {
      assert a + w + b == [a[0]] + (a[1..] + w + b);
      SanitizeKeeps(a[0], a[1..] + w + b);
      SanitizeRun(a[1..], w, b);
      assert [a[0]] + a[1..] == a;
    }
  }

  function ShapeResult(r: RawResult, news: bool): WebResult {
    WebResult(r.url, r.title, r.content, r.rawContent, if news then r.publishedDate else None)
  }

  /** Sanitise the URL, keep the image only if the check accepts it, default the description to ''. */
  function ImageOf(valid: string -> bool): RawImage -> Option<Image> {
    (img: RawImage) =>
      var url := Sanitize(img.url);
      if valid(url) then Some(Image(url, img.description.GetOr(""))) else None
  }

  /** The entry for query i answered with `data`. */
  function Entry(args: SearchArgs, i: nat, data: SearchData, valid: string -> bool): SearchEntry
    requires i < |args.queries|
  {
    var news := IsNewsQuery(args.topics, i);
    SearchEntry(
      args.queries[i],
      seq(|data.results|, j requires 0 <= j < |data.results| => ShapeResult(data.results[j], news)),
      FilterMap(data.images, ImageOf(valid)))
  }

  /**
   * The entries of the first n queries, or the rejection of the first query
   * (in query order) whose search failed.
   */
  function SearchesUpTo(args: SearchArgs, search: SearchRequest -> SearchOutcome, valid: string -> bool, n: nat): Result<seq<SearchEntry>, string>
    requires n <= |args.queries|
  {
    if n == 0 then Ok([])
    else match SearchesUpTo(args, search, valid, n - 1)
      case Err(e) => Err(e)
      case Ok(es) =>
        match search(RequestFor(args, n - 1))
        case Failed(e) => Err(e)
        case Answered(data) => Ok(es + [Entry(args, n - 1, data, valid)])
  }

  function Searches(args: SearchArgs, search: SearchRequest -> SearchOutcome, valid: string -> bool): Result<seq<SearchEntry>, string> {
    SearchesUpTo(args, search, valid, |args.queries|)
  }

  /**
   * On success there is one entry per query, in query order, each the shaping
   * of that query's own answer; the whole search fails exactly when some
   * query's search fails.
   */
  lemma {:induction false} SearchesUpToShape(args: SearchArgs, search: SearchRequest -> SearchOutcome, valid: string -> bool, n: nat)
    requires n <= |args.queries|
    ensures SearchesUpTo(args, search, valid, n).Err? <==>
      exists i :: 0 <= i < n && search(RequestFor(args, i)).Failed?
    ensures SearchesUpTo(args, search, valid, n).Ok? ==>
      var es := SearchesUpTo(args, search, valid, n).value;
      && |es| == n
      && forall i :: 0 <= i < n ==>
        search(RequestFor(args, i)).Answered?
        && es[i] == Entry(args, i, search(RequestFor(args, i)).data, valid)
  {
    if n > 0 {
      SearchesUpToShape(args, search, valid, n - 1);
    }
  }

  lemma SearchesShape(args: SearchArgs, search: SearchRequest -> SearchOutcome, valid: string -> bool)
    ensures Searches(args, search, valid).Err? <==>
      exists i :: 0 <= i < |args.queries| && search(RequestFor(args, i)).Failed?
    ensures Searches(args, search, valid).Ok? ==>
      var es := Searches(args, search, valid).value;
      && |es| == |args.queries|
      && forall i :: 0 <= i < |es| ==>
           (es[i].query == args.queries[i] && es[i] == Entry(args, i, search(RequestFor(args, i)).data, valid))
  {
    SearchesUpToShape(args, search, valid, |args.queries|);
  }

  /**
   * Within an entry: one result per provider result, in order, with its URL,
   * title, content and raw content, and with the provider's publication date
   * for a query whose own topic is news and none for any other. Images are
   * the provider's images that pass the check, in order and each once (the
   * kept positions are increasing), each URL sanitised (so without
   * whitespace) and each missing description replaced by ''.
   */
  lemma EntryShape(args: SearchArgs, i: nat, data: SearchData, valid: string -> bool)
    requires i < |args.queries|
    ensures var e := Entry(args, i, data, valid);
      && |e.results| == |data.results|
      && (forall j :: 0 <= j < |e.results| ==>
            (e.results[j].url == data.results[j].url
             && e.results[j].title == data.results[j].title
             && e.results[j].content == data.results[j].content
             && e.results[j].rawContent == data.results[j].rawContent
             && (IsNewsQuery(args.topics, i) ==> e.results[j].publishedDate == data.results[j].publishedDate)
             && (e.results[j].publishedDate.Some? ==> IsNewsQuery(args.topics, i))))
      && |e.images| <= |data.images|
      && (forall j :: 0 <= j < |e.images| ==>
            (NoWhitespace(e.images[j].url) && valid(e.images[j].url)
             && exists k :: (0 <= k < |data.images| && e.images[j].url == Sanitize(data.images[k].url)
                             && e.images[j].description == data.images[k].description.GetOr(""))))
      && (forall k :: 0 <= k < |data.images| && valid(Sanitize(data.images[k].url)) ==>
            Image(Sanitize(data.images[k].url), data.images[k].description.GetOr("")) in e.images)
    ensures var e := Entry(args, i, data, valid);
      var idx := KeptPositions(data.images, ImageOf(valid));
      && |idx| == |e.images| && Increasing(idx)
      && (forall k :: 0 <= k < |data.images| ==> (valid(Sanitize(data.images[k].url)) <==> k in idx))
      && forall j :: 0 <= j < |idx| ==>
           && idx[j] < |data.images|
           && e.images[j] == Image(Sanitize(data.images[idx[j]].url), data.images[idx[j]].description.GetOr(""))
  {
    var e := Entry(args, i, data, valid);
    var idx := KeptPositions(data.images, ImageOf(valid));
    KeptPositionsExact(data.images, ImageOf(valid));
    forall j | 0 <= j < |idx|
      ensures e.images[j] == Image(Sanitize(data.images[idx[j]].url), data.images[idx[j]].description.GetOr(""))
    {
      assert ImageOf(valid)(data.images[idx[j]]) == Some(e.images[j]);
    }
    forall j | 0 <= j < |e.images|
      ensures NoWhitespace(e.images[j].url) && valid(e.images[j].url)
        && exists k :: (0 <= k < |data.images| && e.images[j].url == Sanitize(data.images[k].url)
                        && e.images[j].description == data.images[k].description.GetOr(""))
    {
      FilterMapFrom(data.images, ImageOf(valid), j);
      var k :| 0 <= k < |data.images| && ImageOf(valid)(data.images[k]) == Some(e.images[j]);
      assert e.images[j].url == Sanitize(data.images[k].url);
    }
    forall k | 0 <= k < |data.images| && valid(Sanitize(data.images[k].url))
      ensures Image(Sanitize(data.images[k].url), data.images[k].description.GetOr("")) in e.images
    {
      FilterMapKeeps(data.images, ImageOf(valid), k);
    }
  }

  datatype StreamEvent = StreamEvent(kind: string, content: string)

  const Loading := StreamEvent("tool-loading", "Running Web Search...")
  const Finish := StreamEvent("finish", "")

  /** The client data stream: the events written so far, in order. */
  class DataStream {
    var events: seq<StreamEvent>

    constructor ()
      ensures events == []
    {
      events := [];
    }

    method WriteData(e: StreamEvent)
      modifies this
      ensures events == old(events) + [e]
    {
      events := events + [e];
    }
  }

  /**
   * The tool's `execute`: announce the search, run every query, and announce
   * the end only when all of them succeeded. Without a stream nothing is
   * written.
   */
  method Execute(dataStream: DataStream?, args: SearchArgs, search: SearchRequest -> SearchOutcome, valid: string -> bool)
    returns (r: Result<WebSearchOutput, string>)
    modifies dataStream
    ensures r.Ok? <==> Searches(args, search, valid).Ok?
    ensures r.Ok? ==> r.value.searches == Searches(args, search, valid).value
    ensures r.Err? ==> r.error == Searches(args, search, valid).error
    ensures dataStream != null ==>
      dataStream.events == old(dataStream.events) + [Loading] + (if r.Ok? then [Finish] else [])
  {
    if dataStream != null {
      dataStream.WriteData(Loading);
    }
    var searchResults := Searches(args, search, valid);
    if searchResults.Err? {
      return Err(searchResults.error);
    }
    if dataStream != null {
      dataStream.WriteData(Finish);
    }
    r := Ok(WebSearchOutput(searchResults.value));
  }
}
