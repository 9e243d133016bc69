/**
 * The TMDB search tool: a multi-search picks the first movie or TV hit,
 * then its details and credits are requested and merged into one record
 * with absolute image URLs, the top five cast members, the director and
 * the writer.
 */
module TmdbSearch {
  import opened Common

  const ImageBase := "https://image.tmdb.org/t/p/original"
  const CastLimit := 5

  /** The keys the record sets itself; the spread details' own values for them are overridden. */
  const RecordKeys: set<string> := {"media_type", "credits", "poster_path", "backdrop_path"}

  /** The key a cast entry's rewritten profile URL overrides. */
  const ProfileKey := "profile_path"

  /** A multi-search hit: its media type and id (other fields are not read). */
  datatype Hit = Hit(mediaType: Option<string>, id: Json)

  /** The multi-search body; `results` may be absent. */
  datatype SearchBody = SearchBody(results: Option<seq<Hit>>)

  /** A details body: the image paths the tool rewrites and every other field. */
  datatype Details = Details(posterPath: Option<string>, backdropPath: Option<string>, rest: map<string, Json>)

  /** A cast entry: its profile image path and every other field. */
  datatype Person = Person(profilePath: Option<string>, rest: map<string, Json>)

  datatype CrewMember = CrewMember(job: Option<string>, name: Option<string>)

  /** A credits body; either list may be absent. */
  datatype CreditsBody = CreditsBody(cast: Option<seq<Person>>, crew: Option<seq<CrewMember>>)

  datatype Credits = Credits(cast: seq<Person>, director: Option<string>, writer: Option<string>)

  /** `resultData`: the details' other fields, the hit's media type, the credits and absolute image URLs. */
  datatype MediaResult = MediaResult(
    rest: map<string, Json>, mediaType: string, credits: Credits,
    posterPath: Option<string>, backdropPath: Option<string>)

  /** The requests the tool makes, in order. */
  datatype Request = SearchMulti(query: string) | DetailsOf(mediaType: string, id: Json) | CreditsOf(mediaType: string, id: Json)

  datatype TmdbError = RequestFailed(reason: string) | ResultsMissing

  /** What the tool returns (`{ result }`, null when nothing matched, or the error it throws) and the requests it made. */
  datatype Outcome = Outcome(result: Result<Option<MediaResult>, TmdbError>, requests: seq<Request>)

  predicate IsMedia(h: Hit) {
    h.mediaType == Some("movie") || h.mediaType == Some("tv")
  }

  /** `path ? ImageBase + path : null`. */
  function ImageUrl(path: Option<string>): (r: Option<string>)
    ensures r.Some? <==> Truthy(path)
    ensures r.Some? ==> r.value == ImageBase + path.value && r.value[|ImageBase|..] == path.value
  {
    if Truthy(path) then Some(ImageBase + path.value) else None
  }

  function WithAbsoluteProfile(p: Person): Person {
    Person(ImageUrl(p.profilePath), p.rest - {ProfileKey})
  }

  function MapProfiles(ps: seq<Person>): (r: seq<Person>)
    ensures |r| == |ps|
    ensures forall k :: 0 <= k < |ps| ==> r[k] == WithAbsoluteProfile(ps[k])
  {
    if ps == [] then [] else [WithAbsoluteProfile(ps[0])] + MapProfiles(ps[1..])
  }

  /** `credits.cast?.slice(0, 5).map(...) || []`. */
  function CastOf(c: CreditsBody): (r: seq<Person>)
    ensures c.cast.None? ==> r == []
    ensures c.cast.Some? ==> |r| == if |c.cast.value| < CastLimit then |c.cast.value| else CastLimit
    ensures forall k :: 0 <= k < |r| ==>
      && r[k].rest == c.cast.value[k].rest - {ProfileKey}
      && r[k].profilePath == ImageUrl(c.cast.value[k].profilePath)
  {
    match c.cast
    case None => []
    case Some(cast) => MapProfiles(Take(cast, CastLimit))
  }

  /** Crew member k is the first whose job is wanted. */
  predicate FirstWantedAt(crew: seq<CrewMember>, wanted: Option<string> -> bool, k: nat) {
    k < |crew| && wanted(crew[k].job) && forall j :: 0 <= j < k ==> !wanted(crew[j].job)
  }

  /** Some crew member's job is wanted. */
  predicate AnyWanted(c: CreditsBody, wanted: Option<string> -> bool) {
    c.crew.Some? && exists k :: 0 <= k < |c.crew.value| && wanted(c.crew.value[k].job)
  }

  /**
   * `credits.crew?.find(p => wanted(p.job))?.name`: the name of the first
   * crew member whose job is wanted (itself possibly missing), or undefined
   * when the crew is missing or nobody's job is wanted.
   */
  function CrewName(c: CreditsBody, wanted: Option<string> -> bool): (r: Option<string>)
    ensures AnyWanted(c, wanted) ==>
      exists k: nat :: FirstWantedAt(c.crew.value, wanted, k) && r == c.crew.value[k].name
    ensures !AnyWanted(c, wanted) ==> r.None?
  {
    if c.crew.None? then None
    else
      match FindFirst(c.crew.value, (m: CrewMember) => wanted(m.job))
      case None => None
      case Some(k) =>
        assert FirstWantedAt(c.crew.value, wanted, k);
        c.crew.value[k].name
  }

  predicate DirectorJob(job: Option<string>) {
    job == Some("Director")
  }

  predicate WriterJob(job: Option<string>) {
    job == Some("Screenplay") || job == Some("Writer")
  }

  function Assemble(h: Hit, d: Details, c: CreditsBody): (r: MediaResult)
    requires IsMedia(h)
  {
    MediaResult(
      d.rest - RecordKeys, h.mediaType.value,
      Credits(CastOf(c), CrewName(c, DirectorJob), CrewName(c, WriterJob)),
      ImageUrl(d.posterPath), ImageUrl(d.backdropPath))
  }

  /**
   * The tool's `execute`. The search, details and credits requests are the
   * parameters `search`, `details` and `credits`; the first that fails is
   * rethrown and no request follows it.
   */
  function Execute(
    query: string,
    search: Result<SearchBody, string>,
    details: (string, Json) -> Result<Details, string>,
    credits: (string, Json) -> Result<CreditsBody, string>): (o: Outcome)
    ensures |o.requests| >= 1 && o.requests[0] == SearchMulti(query)
  {
    if search.Err? then Outcome(Err(RequestFailed(search.error)), [SearchMulti(query)])
    else if search.value.results.None? then Outcome(Err(ResultsMissing), [SearchMulti(query)])
    else
      var hits := search.value.results.value;
      match FindFirst(hits, IsMedia)
      case None => Outcome(Ok(None), [SearchMulti(query)])
      case Some(k) =>
        var mt, id := hits[k].mediaType.value, hits[k].id;
        var asked := [SearchMulti(query), DetailsOf(mt, id)];
        match details(mt, id)
        case Err(e) => Outcome(Err(RequestFailed(e)), asked)
        case Ok(d) =>
          match credits(mt, id)
          case Err(e) => Outcome(Err(RequestFailed(e)), asked + [CreditsOf(mt, id)])
          case Ok(c) => Outcome(Ok(Some(Assemble(hits[k], d, c))), asked + [CreditsOf(mt, id)])
  }

  /**
   * The selected hit is the first movie or TV hit; when there is none the
   * result is null and the search is the only request; otherwise details
   * and credits are requested for that hit's media type and id.
   */
  lemma ExecuteSelection(
    query: string, body: SearchBody,
    details: (string, Json) -> Result<Details, string>,
    credits: (string, Json) -> Result<CreditsBody, string>)
    requires body.results.Some?
    ensures var o := Execute(query, Ok(body), details, credits);
      var hits := body.results.value;
      && (o.result == Ok(None) <==> forall j :: 0 <= j < |hits| ==> !IsMedia(hits[j]))
      && (o.result == Ok(None) ==> o.requests == [SearchMulti(query)])
      && forall k :: 0 <= k < |hits| && IsMedia(hits[k]) && (forall j :: 0 <= j < k ==> !IsMedia(hits[j])) ==>
        && |o.requests| >= 2
        && o.requests[1] == DetailsOf(hits[k].mediaType.value, hits[k].id)
        && (|o.requests| == 3 ==> o.requests[2] == CreditsOf(hits[k].mediaType.value, hits[k].id))
        && (o.result.Ok? ==> o.result.value.Some? && o.result.value.value.mediaType == hits[k].mediaType.value)
  {
  }

  /**
   * A returned record keeps every other field of the details (a key the
   * record sets itself is overridden), takes its media type from the hit,
   * is "movie" or "tv", has image URLs exactly for the image paths that were
   * present, and carries the top cast, the director and the writer of the
   * credits fetched for that hit.
   */
  lemma ExecuteRecord(
    query: string, search: Result<SearchBody, string>,
    details: (string, Json) -> Result<Details, string>,
    credits: (string, Json) -> Result<CreditsBody, string>)
    requires Execute(query, search, details, credits).result.Ok?
    requires Execute(query, search, details, credits).result.value.Some?
    ensures var o := Execute(query, search, details, credits);
      var m := o.result.value.value;
      var mt := o.requests[1].mediaType;
      var id := o.requests[1].id;
      && |o.requests| == 3
      && (mt == "movie" || mt == "tv") && m.mediaType == mt
      && details(mt, id).Ok? && credits(mt, id).Ok?
      && m.rest == details(mt, id).value.rest - RecordKeys
      && (forall key :: key in RecordKeys ==> key !in m.rest)
      && (m.posterPath.Some? <==> Truthy(details(mt, id).value.posterPath))
      && (m.backdropPath.Some? <==> Truthy(details(mt, id).value.backdropPath))
      && m.posterPath == ImageUrl(details(mt, id).value.posterPath)
      && m.backdropPath == ImageUrl(details(mt, id).value.backdropPath)
      && |m.credits.cast| <= CastLimit
      && m.credits.cast == CastOf(credits(mt, id).value)
      && m.credits.director == CrewName(credits(mt, id).value, DirectorJob)
      && m.credits.writer == CrewName(credits(mt, id).value, WriterJob)
  {
  }
}
