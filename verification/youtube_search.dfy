/**
 * The YouTube search tool: each search hit's URL is matched against
 * `(?:youtube\.com\/watch\?v=|youtu\.be\/|youtube\.com\/embed\/)([^&?/]+)`;
 * hits without a video id are dropped, and the others are enriched with the
 * details, captions and timestamps of three side requests, or left bare when
 * one of those requests throws.
 */
module YoutubeSearch {
  import opened Common
  import opened Strings

  /** The three URL prefixes the pattern accepts, in the order it tries them. */
  const WatchPrefix := "youtube.com/watch?v="
  const ShortPrefix := "youtu.be/"
  const EmbedPrefix := "youtube.com/embed/"

  /** `[^&?/]`. */
  predicate IdChar(c: char) {
    c != '&' && c != '?' && c != '/'
  }

  /** The prefix the pattern can match at i (at most one of the three occurs there). */
  function PrefixAt(s: string, i: nat): Option<string> {
    if OccursAt(s, WatchPrefix, i) then Some(WatchPrefix)
    else if OccursAt(s, ShortPrefix, i) then Some(ShortPrefix)
    else if OccursAt(s, EmbedPrefix, i) then Some(EmbedPrefix)
    else None
  }

  /** The capture when the pattern matches at i: the longest non-empty run of id characters after the prefix. */
  function VideoIdAt(s: string, i: nat): Option<string> {
    match PrefixAt(s, i)
    case None => None
    case Some(p) =>
      var e := RunEnd(s, i + |p|, IdChar);
      if e == i + |p| then None else Some(s[i + |p|..e])
  }

  predicate AllIdChars(w: string) {
    forall k :: 0 <= k < |w| ==> IdChar(w[k])
  }

  /**
   * `s` names a video at i: one of the prefixes followed by a non-empty id
   * without `&`, `?` or `/`, which ends at the end of `s` or before one of those.
   */
  predicate NamesVideo(s: string, i: nat, prefix: string, id: string) {
    && (prefix == WatchPrefix || prefix == ShortPrefix || prefix == EmbedPrefix)
    && |id| > 0 && AllIdChars(id)
    && OccursAt(s, prefix + id, i)
    && (i + |prefix| + |id| == |s| || !IdChar(s[i + |prefix| + |id|]))
  }

  lemma PrefixesExclusive(s: string, i: nat, prefix: string)
    requires prefix == WatchPrefix || prefix == ShortPrefix || prefix == EmbedPrefix
    requires OccursAt(s, prefix, i)
    ensures PrefixAt(s, i) == Some(prefix)
  {
    if prefix != WatchPrefix {
      assert s[i + 5] == prefix[5];
      if prefix == EmbedPrefix {
        assert s[i + 12] == prefix[12];
      }
      assert !OccursAt(s, WatchPrefix, i);
    }
    if prefix == EmbedPrefix {
      assert s[i + 5] == prefix[5];
      assert !OccursAt(s, ShortPrefix, i);
    }
  }

  lemma NamesVideoOfMatch(s: string, i: nat, id: string)
    requires VideoIdAt(s, i) == Some(id)
    ensures NamesVideo(s, i, PrefixAt(s, i).value, id)
  {
    var p := PrefixAt(s, i).value;
    var b := i + |p|;
    var e := RunEnd(s, b, IdChar);
    assert OccursAt(s, p, i);
    assert OccursAt(s, id, b);
    OccursAtConcat(s, p, id, i);
    forall k | 0 <= k < |id|
      ensures IdChar(id[k])
    {
      assert id[k] == s[b + k];
    }
  }

  lemma MatchOfNamesVideo(s: string, i: nat, prefix: string, id: string)
    requires NamesVideo(s, i, prefix, id)
    ensures VideoIdAt(s, i) == Some(id)
  {
    OccursAtConcat(s, prefix, id, i);
    PrefixesExclusive(s, i, prefix);
    var b := i + |prefix|;
    assert forall k :: b <= k < b + |id| ==> s[k] == id[k - b];
    RunEndAt(s, b, IdChar, b + |id|);
  }

  /** The pattern matches at i, capturing `id`, exactly when `s` names that video there. */
  lemma VideoIdAtNames(s: string, i: nat, id: string)
    ensures VideoIdAt(s, i) == Some(id) <==> exists prefix :: NamesVideo(s, i, prefix, id)
  {
    if VideoIdAt(s, i) == Some(id) {
      NamesVideoOfMatch(s, i, id);
    }
    if exists prefix :: NamesVideo(s, i, prefix, id) {
      var prefix :| NamesVideo(s, i, prefix, id);
      MatchOfNamesVideo(s, i, prefix, id);
    }
  }

  /** `url.match(...)?.[1]`: the capture of the leftmost match at or after `from`. */
  function ExtractVideoId(s: string, from: nat := 0): (r: Option<string>)
    ensures r.Some? ==> exists i :: (from <= i && VideoIdAt(s, i) == r
      && forall j :: from <= j < i ==> VideoIdAt(s, j).None?)
    ensures r.None? ==> forall i :: from <= i ==> VideoIdAt(s, i).None?
    decreases |s| - from
  {
    if from > |s| then None
    else if VideoIdAt(s, from).Some? then VideoIdAt(s, from)
    else ExtractVideoId(s, from + 1)
  }

  /** An extracted id is non-empty, free of `&`, `?` and `/`, and spelled in the URL after a prefix. */
  lemma ExtractedVideoIdShape(url: string)
    requires ExtractVideoId(url).Some?
    ensures var id := ExtractVideoId(url).value;
      && |id| > 0 && AllIdChars(id)
      && exists i, prefix :: NamesVideo(url, i, prefix, id)
  {
    var id := ExtractVideoId(url).value;
    var i :| VideoIdAt(url, i) == Some(id);
    NamesVideoOfMatch(url, i, id);
  }

  /** A URL that names a video somewhere yields an id. */
  lemma NamedVideoYieldsId(url: string, i: nat, prefix: string, id: string)
    requires NamesVideo(url, i, prefix, id)
    ensures ExtractVideoId(url).Some?
  {
    MatchOfNamesVideo(url, i, prefix, id);
  }

  /**
   * The outcome of the three side requests for one video: one of them
   * threw, or each answered. A details or timestamps request that was not
   * OK answers `null`, a captions request that was not OK answers `None`.
   */
  datatype SideRequests =
    | Raised
    | Answered(details: Json, captions: Option<string>, timestamps: Json)

  /** A search hit, with the side requests for its URL. */
  datatype Hit = Hit(url: string, side: SideRequests)

  /** A returned video; details, captions and timestamps are present only when truthy. */
  datatype Video = Video(
    videoId: string, url: string,
    details: Option<Json>, captions: Option<string>, timestamps: Option<Json>)

  function VideoOf(h: Hit): (r: Option<Video>)
    ensures r.Some? ==> r.value.url == h.url && Some(r.value.videoId) == ExtractVideoId(h.url)
    ensures r.Some? <==> ExtractVideoId(h.url).Some?
  {
    match ExtractVideoId(h.url)
    case None => None
    case Some(videoId) =>
      match h.side
      case Raised => Some(Video(videoId, h.url, None, None, None))
      case Answered(details, captions, timestamps) =>
        Some(Video(videoId, h.url, DefinedIfTruthy(details),
                   if Truthy(captions) then captions else None,
                   DefinedIfTruthy(timestamps)))
  }

  /**
   * A video carries a value exactly when its side request answered it with a
   * truthy one, and then carries that value.
   */
  lemma VideoFields(h: Hit)
    requires VideoOf(h).Some?
    ensures var v := VideoOf(h).value;
      && (h.side.Raised? ==> v.details.None? && v.captions.None? && v.timestamps.None?)
      && (v.details.Some? ==> h.side.Answered? && v.details.value == h.side.details && !Falsy(v.details.value))
      && (v.timestamps.Some? ==> h.side.Answered? && v.timestamps.value == h.side.timestamps
                                  && !Falsy(v.timestamps.value))
      && (v.captions.Some? ==> h.side.Answered? && v.captions == h.side.captions && v.captions.value != "")
      && (h.side.Answered? && !Falsy(h.side.details) ==> v.details == Some(h.side.details))
      && (h.side.Answered? && !Falsy(h.side.timestamps) ==> v.timestamps == Some(h.side.timestamps))
      && (h.side.Answered? && Truthy(h.side.captions) ==> v.captions == h.side.captions)
  {
  }

  /**
   * The returned videos are exactly the hits whose URL yields an id, in
   * search order, each with that id and its own URL.
   */
  lemma VideosSelected(hits: seq<Hit>)
    ensures var r := FilterMap(hits, VideoOf);
      var idx := KeptPositions(hits, VideoOf);
      && |idx| == |r| && Increasing(idx)
      && (forall i :: 0 <= i < |hits| ==> (ExtractVideoId(hits[i].url).Some? <==> i in idx))
      && forall j :: 0 <= j < |r| ==>
        idx[j] < |hits| && r[j].url == hits[idx[j]].url
        && Some(r[j].videoId) == ExtractVideoId(hits[idx[j]].url)
  {
    KeptPositionsExact(hits, VideoOf);
  }

  /** `{ results: validResults }`; a search error is rethrown. */
  function Execute(response: Result<seq<Hit>, string>): (r: Result<seq<Video>, string>)
    ensures response.Err? ==> r == Err(response.error)
    ensures response.Ok? ==> r.Ok? && |r.value| <= |response.value|
  {
    match response
    case Err(e) => Err(e)
    case Ok(hits) => Ok(FilterMap(hits, VideoOf))
  }
}
