# Tool-adapter result shaping, modelled in Dafny

This project models the result-shaping layer of the chat assistant's tool
adapters (`lib/ai/tools/`) and two string helpers of the academic result card
(`components/tools/academic-search.tsx`). Each adapter receives a provider
response and shapes it into the value the tool returns. Here every provider
response is an input value that has already been fetched. Each adapter is then
a deterministic function, or a method where the source updates state step by
step, from those inputs to the tool's result.

Modules, one per source file plus three shared ones:

- `Common` (common.dfy): optional values and results, JavaScript `||` on
  optional strings, JSON falsiness, `slice`, `findIndex`, and `FilterMap`.
  `FilterMap` is the map-then-drop-nulls pattern the adapters use, and
  `KeptPositions` characterises exactly which inputs it keeps.
- `Strings` (strings.dfy): the whitespace class `\s` of JavaScript regular
  expressions, `\w`, `\d`, greedy runs, `indexOf`/`includes`, `replace` with a
  string pattern (first occurrence only), and `split`/`join` on one character.
- `Sorting` (sorting.dfy): `Array.prototype.sort` with a comparator, as a
  stable insertion sort. It is proved sorted and a permutation of its input.
- `NearbySearch` (nearby_search.dfy): the opening-hours loop (a method proved
  equal to a specification function), the place record with its defaults, and
  the final list: failed places dropped, survivors sorted by distance.
- `WebSearch` (web_search.dfy): per-query option fallback, result and image
  shaping, URL sanitising, and the `tool-loading`/`finish` events written to
  the data stream, which is a class holding the event log.
- `AcademicSearch` (academic_search.dfy): the deduplicating `reduce` (a loop
  proved equal to a specification function), the summary and title clean-up,
  and the ten-paper cap.
- `XSearch` and `YoutubeSearch`: the regular-expression id extractors, each
  proved equivalent to a declarative description of a matching URL, and the
  order-preserving filters.
- `FindPlace`, `TmdbSearch`, `TextSearch`: the geocoding merge, the TMDB
  first-match and record assembly, and the Mapbox text-search request
  parameters and result mapping. The `searchParams` object is a class whose
  `Set` follows `URLSearchParams.set`.
- `AcademicCard` (academic_card.dfy): the author line and the arXiv PDF link.

Behaviour of the code that the model keeps as written:

- The hours scan never wraps to next week. It also stops at the first period,
  in (day, open time) order, that is either open now or opens later this
  week. So a period later today, sorted before an overnight period of today,
  hides the fact that the overnight period is open in the small hours.
- A summary made only of the `Summary:` label is kept, and it comes out empty
  (`AcademicSearch.LabelOnlySummaryBecomesEmpty`).
- The X status pattern is not anchored to a host boundary, so `fox.com/a/status/1`
  also yields an id.

## Model

| member | source | states |
|---|---|---|
| NearbySearch.CurrentTime | lib/ai/tools/nearby-search.ts:114-117 | the current time is an `hhmm` number between 0 and 2359 whose last two digits are below 60 |
| NearbySearch.OpensNoLaterIsPreorder | lib/ai/tools/nearby-search.ts:122-125 | the period comparator (open day, then open time) is a total preorder |
| NearbySearch.FirstDecisive | lib/ai/tools/nearby-search.ts:126-157 | the scan stops at the first period that is open now or opens later this week; no earlier period is either |
| NearbySearch.EvaluateHours | lib/ai/tools/nearby-search.ts:118-158 | the loop with its breaks computes exactly the hours status: the first decisive period in sorted order decides, else closed/null/today; reading the close time of an open period without one fails |
| NearbySearch.SortedPeriodsOrdered | lib/ai/tools/nearby-search.ts:122-125 | the sorted copy is ordered by (day, open time) and holds exactly the input periods |
| NearbySearch.HoursOpen | lib/ai/tools/nearby-search.ts:131-148 | open means the earliest period at which the scan stops is open now and has a close time, which is reported; the next day is (day + 1) % 7 for an overnight period at or past its close time, and today otherwise |
| NearbySearch.HoursClosedNext | lib/ai/tools/nearby-search.ts:150-156 | a reported next opening is the earliest decisive period, which is not open now and opens later this week; its day is never before today |
| NearbySearch.HoursClosedNothingNext | lib/ai/tools/nearby-search.ts:118-121 | closed, no next time and today's day exactly when no period is open now or opens later this week, including when there are no periods |
| NearbySearch.HoursFailure | lib/ai/tools/nearby-search.ts:129-147 | the evaluator fails only when the earliest decisive period is open now and has no close time |
| NearbySearch.HoursFailsAt | lib/ai/tools/nearby-search.ts:129-147 | the evaluator fails when the earliest period at which the scan stops is open now and has no close time |
| NearbySearch.DecidingPeriod | lib/ai/tools/nearby-search.ts:118-158 | whenever the status is not "closed, nothing next", it is the verdict of a listed period that is decisive now and opens no later than any other decisive period |
| NearbySearch.HoursDecidedBy | lib/ai/tools/nearby-search.ts:118-158 | the earliest decisive period (the first listed among equal openings) decides: open now without a close time fails; open now reports its close time and the day it falls on; otherwise closed with its opening time and day |
| Sorting.SortByFirstMinimal | lib/ai/tools/nearby-search.ts:122-125 | the sort is stable: the first listed of the least elements satisfying a condition is the first element of the sorted copy satisfying it |
| NearbySearch.KeptPhotos | lib/ai/tools/nearby-search.ts:89-99 | exactly the photos with a medium URL are kept, in list order and each once; none without a list |
| NearbySearch.BuildPlaceDrops | lib/ai/tools/nearby-search.ts:53-71 | a place is dropped exactly when its location id is missing, its details are not OK or raise, or its hours evaluation fails |
| NearbySearch.BuildPlaceRecord | lib/ai/tools/nearby-search.ts:159-185 | a kept place reports its hours status, returns its periods in their original order, and carries its location id, its distance (0 when missing), the requested type and exactly the photos with a medium URL; name, time zone, vicinity, bearing, price level, cuisine, description, phone, website and source are the provider's value when truthy and otherwise 'Unnamed Place', 'UTC', 'TripAdvisor' or ''; the weekday text defaults to [] |
| NearbySearch.Nearby | lib/ai/tools/nearby-search.ts:42-49 | the search fails exactly when the nearby response is not OK; missing or empty data gives no results and the centre |
| NearbySearch.NoFartherIsPreorder | lib/ai/tools/nearby-search.ts:194 | the distance comparator is a total preorder |
| NearbySearch.NearbyResults | lib/ai/tools/nearby-search.ts:192-195 | the results are sorted by non-decreasing distance and are a permutation of the built places; the centre is echoed |
| NearbySearch.NearbyResultFrom | lib/ai/tools/nearby-search.ts:192-193 | every result was built from a candidate with a location id whose lookup succeeded |
| NearbySearch.NearbyKeepsBuilt | lib/ai/tools/nearby-search.ts:192-193 | every place that was built appears in the results |
| WebSearch.RequestResolution | lib/ai/tools/web-search.ts:36-46 | each request carries its query and the exclusions; topic, depth and count are the query's own, else the first, else 'general', 'basic' and 10 (a zero count counts as missing, so the count is never 0); the 7-day window is set exactly when the query's own topic is news |
| WebSearch.Sanitize | lib/ai/tools/web-search.ts:60 | a sanitised URL contains no whitespace |
| WebSearch.SanitizeKeepsClean | lib/ai/tools/web-search.ts:60 | a URL without whitespace is unchanged |
| WebSearch.SanitizeIdempotent | lib/ai/tools/web-search.ts:60 | sanitising twice is sanitising once |
| WebSearch.SanitizeRun | lib/ai/tools/web-search.ts:60 | one maximal whitespace run becomes exactly one `%20`, with the text before it kept |
| WebSearch.SearchesUpToShape | lib/ai/tools/web-search.ts:36-81 | the first n searches fail exactly when one of them fails; otherwise there is one entry per query, in order |
| WebSearch.SearchesShape | lib/ai/tools/web-search.ts:36-81 | the output has exactly one entry per query, in query order, carrying its query; it fails exactly when some search fails |
| WebSearch.EntryShape | lib/ai/tools/web-search.ts:47-71 | one result per provider result, in order, copying URL, title, content and raw content, with the provider's publication date exactly for a query whose own topic is news; images are exactly the valid ones, in input order and each once, sanitised, with '' for a missing description |
| WebSearch.DataStream.WriteData | lib/ai/tools/web-search.ts:19-22 | writing appends one event to the log |
| WebSearch.Execute | lib/ai/tools/web-search.ts:16-89 | with a stream, 'tool-loading' is written first, and 'finish' is written exactly when every search succeeded |
| AcademicSearch.StripLabel | lib/ai/tools/academic-search.ts:25 | a leading case-insensitive `Summary:` and the whitespace after it are removed; otherwise the summary is unchanged |
| AcademicSearch.FirstTag | lib/ai/tools/academic-search.ts:26 | the leftmost position where whitespace, `[`, no line break and a final `]` match |
| AcademicSearch.StripTag | lib/ai/tools/academic-search.ts:26 | the title is cut at the leftmost tag match, or unchanged exactly when there is none |
| AcademicSearch.SurvivorUrls | lib/ai/tools/academic-search.ts:23 | the kept URLs are exactly the URLs of papers with a summary |
| AcademicSearch.SurvivorsDistinct | lib/ai/tools/academic-search.ts:23 | no two results share a URL |
| AcademicSearch.SurvivorsOrigin | lib/ai/tools/academic-search.ts:21-33 | each result is the cleaned first summarised paper of its URL |
| AcademicSearch.SurvivorFields | lib/ai/tools/academic-search.ts:23-31 | each result comes from a paper with a non-empty summary: the summary with the label stripped, the title with the tag stripped or '', and every other field (including the ones not read) passed on |
| AcademicSearch.DedupeAndClean | lib/ai/tools/academic-search.ts:21-33 | the reduce loop computes exactly the first-of-URL survivors, cleaned, in order |
| AcademicSearch.Execute | lib/ai/tools/academic-search.ts:11-40 | the first ten survivors, at most ten; a provider error is rethrown |
| AcademicSearch.LabelOnlySummaryBecomesEmpty | lib/ai/tools/academic-search.ts:23-25 | a summary that is only the label, in any case and with any trailing whitespace, passes the summary check, so its paper is kept, and becomes '' |
| XSearch.TweetIdAtSpells | lib/ai/tools/x-search.ts:29 | the pattern matches at a position, capturing an id, exactly when the URL spells host/handle/status/id there, with a non-empty word handle and the maximal non-empty digit run |
| XSearch.ExtractTweetId | lib/ai/tools/x-search.ts:28-31 | the capture of the leftmost match, or null when no position matches |
| XSearch.ExtractedIdShape | lib/ai/tools/x-search.ts:28-31 | an extracted id is a non-empty run of digits spelled after a host, a handle and `/status/` |
| XSearch.SpelledUrlYieldsId | lib/ai/tools/x-search.ts:28-31 | a URL that spells a status link yields an id |
| XSearch.CollectTweets | lib/ai/tools/x-search.ts:33-39 | the reduce loop keeps exactly the posts that yield an id, in order |
| XSearch.TweetsSelected | lib/ai/tools/x-search.ts:33-39 | the output holds exactly the posts whose URL yields an id, in input order, with that id, their title or '', and every other field (including the ones not read) passed on |
| XSearch.Execute | lib/ai/tools/x-search.ts:33-45 | the collected tweets; a provider error is rethrown |
| YoutubeSearch.PrefixesExclusive | lib/ai/tools/youtube-search.ts:24 | at most one of the three URL prefixes occurs at a position, so the alternation never backtracks into another |
| YoutubeSearch.VideoIdAtNames | lib/ai/tools/youtube-search.ts:23-25 | the pattern matches at a position exactly when a prefix is followed by the maximal non-empty run of characters other than `&`, `?`, `/` |
| YoutubeSearch.ExtractVideoId | lib/ai/tools/youtube-search.ts:23-26 | the capture of the leftmost match, or none |
| YoutubeSearch.ExtractedVideoIdShape | lib/ai/tools/youtube-search.ts:23-27 | an extracted id is non-empty, free of `&`, `?`, `/`, and follows one of the prefixes |
| YoutubeSearch.NamedVideoYieldsId | lib/ai/tools/youtube-search.ts:23-27 | a URL that names a video yields an id |
| YoutubeSearch.VideoOf | lib/ai/tools/youtube-search.ts:22-56 | a hit yields a video exactly when its URL yields an id; the video keeps its URL and id even when the side requests throw |
| YoutubeSearch.VideoFields | lib/ai/tools/youtube-search.ts:47-55 | details, captions and timestamps are present exactly when their response is truthy, and then carry it; a throwing side request leaves just `{videoId, url}` |
| YoutubeSearch.VideosSelected | lib/ai/tools/youtube-search.ts:58-60 | the videos are exactly the hits with an id, in input order |
| YoutubeSearch.Execute | lib/ai/tools/youtube-search.ts:11-65 | at most one video per hit; a search error is rethrown |
| FindPlace.ReverseRequestFor | lib/ai/tools/find-place.ts:34-36 | the reverse request reads `coordinates[0]` as latitude and `coordinates[1]` as longitude |
| FindPlace.PlaceNameBeforeComma | lib/ai/tools/find-place.ts:46 | a Google name is the address up to its first comma, or the whole address without one |
| FindPlace.GoogleFeature | lib/ai/tools/find-place.ts:44-60 | a Google feature is tagged 'google' and has `[lng, lat]` coordinates |
| FindPlace.MapboxFeatureOf | lib/ai/tools/find-place.ts:67-78 | a Mapbox feature is tagged 'mapbox' and prefers `name_preferred` over `name` |
| FindPlace.MapGoogle | lib/ai/tools/find-place.ts:44 | one feature per Google result, in order |
| FindPlace.MapMapbox | lib/ai/tools/find-place.ts:67 | one feature per Mapbox feature, in order |
| FindPlace.Assemble | lib/ai/tools/find-place.ts:40-86 | both attributions; the feature count is the sum of the included lists' lengths |
| FindPlace.AssembleOrder | lib/ai/tools/find-place.ts:40-80 | every Google feature precedes every Mapbox feature, each built from its own input in order; Google is included iff status is 'OK' and results are non-empty, Mapbox iff it has features |
| FindPlace.AssembleSources | lib/ai/tools/find-place.ts:59-77 | every feature is tagged with the provider it came from |
| FindPlace.Execute | lib/ai/tools/find-place.ts:21-90 | Google is asked for the query and Mapbox for the reverse request of the coordinates; request errors are rethrown in request order; an OK Google body without results fails; otherwise the result is the assembled record |
| TmdbSearch.ImageUrl | lib/ai/tools/tmdb-search.ts:66-71 | a present path gets the image base URL prefix, a missing one gives null |
| TmdbSearch.CastOf | lib/ai/tools/tmdb-search.ts:54-60 | the cast is the first at most 5 entries in order with prefixed profile paths; a missing cast gives [] |
| TmdbSearch.CrewName | lib/ai/tools/tmdb-search.ts:61-64 | when some crew member's job is wanted, the name of the first such member; undefined when the crew is missing or no job is wanted |
| TmdbSearch.Execute | lib/ai/tools/tmdb-search.ts:13-77 | the multi-search is always the first request |
| TmdbSearch.ExecuteSelection | lib/ai/tools/tmdb-search.ts:24-49 | the first movie or tv hit is selected; with none the result is null and no further request is made; details and credits are requested for its media type and id |
| TmdbSearch.ExecuteRecord | lib/ai/tools/tmdb-search.ts:50-73 | a record keeps the details' other fields (the keys it sets itself overridden), takes the hit's media type, has the absolute image URLs of the present paths, and carries the top 5 cast, the director and the writer of the credits fetched for that hit |
| TextSearch.Without | lib/ai/tools/text-search.ts:41 | removing a key leaves no entry with it and every other key's value unchanged |
| TextSearch.SetParam | lib/ai/tools/text-search.ts:41 | after setting, the key has the new value and every other key its old value |
| TextSearch.SetParamDistinct | lib/ai/tools/text-search.ts:41-64 | setting keeps each key present once, appending only a new key |
| TextSearch.SearchParams.constructor | lib/ai/tools/text-search.ts:40 | a new URL has no query parameters |
| TextSearch.SearchParams.Set | lib/ai/tools/text-search.ts:41 | the parameters become those of `URLSearchParams.set` |
| TextSearch.ProximitySwaps | lib/ai/tools/text-search.ts:53-54 | a location "lat,lng" yields the proximity "lng,lat"; without a comma the longitude is "undefined" |
| TextSearch.FixedParamsContents | lib/ai/tools/text-search.ts:41-49 | the token, the query, limit 5 and the fixed type list are set, each once |
| TextSearch.LocationParamsContents | lib/ai/tools/text-search.ts:52-65 | proximity is set exactly when a location is given, bbox exactly when a location and a positive radius are given |
| TextSearch.RequestParamsContents | lib/ai/tools/text-search.ts:32-65 | the request carries the token, `q` equal to the query, limit 5, the type list, and proximity and bbox exactly when they apply |
| TextSearch.BuildParams | lib/ai/tools/text-search.ts:32-65 | a missing or empty token fails before any parameter is set; otherwise the parameters are set in order |
| TextSearch.PlaceOf | lib/ai/tools/text-search.ts:78-89 | lat is `coordinates[1]` and lng is `coordinates[0]` |
| TextSearch.VicinityFallback | lib/ai/tools/text-search.ts:88 | vicinity is the full address, else the formatted place, else the name |
| TextSearch.MapPlaces | lib/ai/tools/text-search.ts:78-90 | one place per feature, in order |
| TextSearch.Execute | lib/ai/tools/text-search.ts:32-96 | no request without a token; a rejected or non-OK response throws; otherwise the features map in order, missing features giving [] |
| AcademicCard.AuthorLineSingle | components/tools/academic-search.tsx:65-69 | a single author is shown as written |
| AcademicCard.AuthorLinePair | components/tools/academic-search.tsx:65-69 | two authors are joined by ", ", untrimmed, without " et al." |
| AcademicCard.AuthorLineMany | components/tools/academic-search.tsx:65-69 | with more than two authors only the first two are shown, followed by " et al." |
| AcademicCard.EtAlIffMoreThanTwo | components/tools/academic-search.tsx:69 | there are more than two parts exactly when the author string has at least two separators |
| AcademicCard.PdfUrl | components/tools/academic-search.tsx:97-100 | a PDF link exists exactly for URLs containing "arxiv.org" and is as long as the URL |
| AcademicCard.PdfUrlFirstAbs | components/tools/academic-search.tsx:100 | the first "abs" becomes "pdf" and the rest of the URL, later "abs" included, is unchanged |
| AcademicCard.PaperCardOf | components/tools/academic-search.tsx:58-105 | the author line only for a present author, the date only when present, the PDF link only for arXiv |
| AcademicCard.MapCards | components/tools/academic-search.tsx:46-110 | one card per paper, in order |
| AcademicCard.Render | components/tools/academic-search.tsx:21-110 | without a result only the loading placeholder; otherwise the paper count and, in order, the card of each paper |

## Left out

- Network and SDK calls (Tavily, Exa, Google, Mapbox, TripAdvisor, TMDB, the video-data service) are not made. Their outcomes are inputs: values, or functions from the request to the outcome.
- `isValidImageUrl` (a HEAD request with a timeout) is the parameter `valid` of the web search.
- `Promise.all` concurrency is modelled as an ordered map. When several searches fail, the model reports the one with the lowest index. The source reports whichever rejection settles first.
- Floating point: `parseFloat` of coordinates, ratings and review counts, the six-decimal truncation of geocoded coordinates, and the place's latitude and longitude. These fields are not in the place record. Distances are reals, and a distance that does not parse is not modelled.
- Period times are modelled as their `parseInt` values. A time that does not parse (NaN) is not modelled. `next_open_close` carries the number rather than the original time string.
- Time zones, `Date` and `toLocaleString`: the place's local weekday, hour and minute are an input. The x-search date window is computed but unused, and it is not modelled. The card's `toLocaleDateString` is not modelled either.
- The bbox degree arithmetic and the text of `Number(part)` in the text search are functions supplied by the caller (`Rendering`).
- JSON bodies are typed records. A field of an unexpected type (a number where a string is expected, for example) is not modelled. Fields the tools only pass through are kept as `Json` values, and the fields an object spread (`...paper`, `...post`, `...details`, `...person`) passes on without reading are kept in a `rest` map. A key the returned object sets itself after the spread (`media_type`, `credits`, `poster_path` and `backdrop_path` on a TMDB record, `profile_path` on a cast entry, `tweetId` on a post) is removed from the passed-on map, because the later key overrides it.
- zod validation and defaults are not modelled: the arguments arrive already validated.
- Console logging, the React markup, the animation and the click handlers of the card are not modelled.
- The `includeImageDescriptions = false` branch of the web search is dead code, since the constant is `true`. It is not modelled.
- `Sorting.SortBy` is stable by construction. Stability is stated only in the form the hours scan needs (`Sorting.SortByFirstMinimal`), not as a general lemma.
- `TmdbSearch.Execute`: its own contract only fixes the first request. The selection and the record are stated by `ExecuteSelection` and `ExecuteRecord`.
- `YoutubeSearch.Execute`: its own contract states the error path and the length bound. Which videos are kept is stated by `VideosSelected`.
