/**
 * The result-shaping part of the nearby-places tool: the opening-hours
 * evaluator run for every place, the place record with its defaults, and the
 * final list (failed places dropped, survivors sorted by distance).
 *
 * The provider calls (nearby search, place details, photos, time zone) are
 * not made here: their outcomes are inputs. The place's local clock, which
 * the source reads from `Date` in the place's time zone, is an input too.
 */
module NearbySearch {
  import opened Common
  import opened Sorting

  /** `Date.getDay()`: 0 is Sunday. */
  type Weekday = d: int | 0 <= d < 7
  type Hour = h: int | 0 <= h < 24
  type Minute = m: int | 0 <= m < 60

  /** The place's local clock when the details are processed. */
  datatype LocalTime = LocalTime(day: Weekday, hour: Hour, minute: Minute)

  /** The `hhmm` number the hours are compared with. */
  function CurrentTime(now: LocalTime): (t: int)
    ensures 0 <= t <= 2359 && t % 100 < 60
  {
    now.hour * 100 + now.minute
  }

  /** One end of an opening period: a weekday and the numeric value of its `hhmm` time. */
  datatype Moment = Moment(day: int, time: int)

  /** An opening period; the closing moment may be missing. */
  datatype Period = Period(open: Moment, close: Option<Moment>)

  /** What the evaluator reports: `is_closed`, `next_open_close` and `next_day`. */
  datatype Hours = Hours(isClosed: bool, nextOpenClose: Option<int>, nextDay: int)

  /** Reading `close.time` of a period that has no `close` throws. */
  datatype HoursError = MissingCloseTime

  /** The sort comparator's "not after": by opening day, then by opening time. */
  predicate OpensNoLater(a: Period, b: Period) {
    a.open.day < b.open.day || (a.open.day == b.open.day && a.open.time <= b.open.time)
  }

  lemma OpensNoLaterIsPreorder()
    ensures TotalPreorder(OpensNoLater)
  {
  }

  /** A missing closing time compares as 2359. */
  function CloseTime(p: Period): int {
    if p.close.Some? then p.close.value.time else 2359
  }

  /** A period that closes earlier in the day than it opens runs past midnight. */
  predicate Overnight(p: Period) {
    CloseTime(p) < p.open.time
  }

  /**
   * The period makes the place open now: it is today's, and the current time
   * lies in [open, close), or for an overnight period before close or from
   * open on.
   */
  predicate OpenNow(p: Period, now: LocalTime) {
    var t := CurrentTime(now);
    p.open.day == now.day &&
    if Overnight(p) then t < CloseTime(p) || t >= p.open.time
    else p.open.time <= t < CloseTime(p)
  }

  /** The period opens later this week: a later day, or later today. */
  predicate OpensLater(p: Period, now: LocalTime) {
    p.open.day > now.day || (p.open.day == now.day && p.open.time > CurrentTime(now))
  }

  /** A period at which the scan stops. */
  predicate Decisive(p: Period, now: LocalTime) {
    OpenNow(p, now) || OpensLater(p, now)
  }

  /** The position of the first period at which the scan stops, or |ps| if none. */
  function FirstDecisive(ps: seq<Period>, now: LocalTime): (k: nat)
    ensures k <= |ps|
    ensures forall j :: 0 <= j < k ==> !Decisive(ps[j], now)
    ensures k < |ps| ==> Decisive(ps[k], now)
  {
    if ps == [] then 0
    else if Decisive(ps[0], now) then 0
    else 1 + FirstDecisive(ps[1..], now)
  }

  /** What the scan reports when it stops at `p`. */
  function Verdict(p: Period, now: LocalTime): Result<Hours, HoursError> {
    if OpenNow(p, now) then
      match p.close
      case None => Err(MissingCloseTime)
      case Some(c) =>
        var nextDay := if Overnight(p) && CurrentTime(now) >= CloseTime(p) then (p.open.day + 1) % 7 else now.day;
        Ok(Hours(false, Some(c.time), nextDay))
    else Ok(Hours(true, Some(p.open.time), p.open.day))
  }

  /** The periods field of the details, `[]` when absent. */
  function PeriodList(periods: Option<seq<Period>>): seq<Period> {
    periods.GetOr([])
  }

  /**
   * The hours status: closed, nothing next and today unless some period,
   * in (day, open time) order, is decisive; then the first decisive one
   * decides.
   */
  function HoursStatus(periods: Option<seq<Period>>, now: LocalTime): Result<Hours, HoursError> {
    var closed := Ok(Hours(true, None, now.day));
    match periods
    case None => closed
    case Some(ps) =>
      var sorted := SortBy(ps, OpensNoLater);
      var k := FirstDecisive(sorted, now);
      if k == |sorted| then closed else Verdict(sorted[k], now)
  }

  /** The scan stops at i when no earlier period is decisive and period i is (or i is the end). */
  lemma FirstDecisiveAt(ps: seq<Period>, now: LocalTime, i: nat)
    requires i <= |ps|
    requires forall j :: 0 <= j < i ==> !Decisive(ps[j], now)
    requires i < |ps| ==> Decisive(ps[i], now)
    ensures FirstDecisive(ps, now) == i
  {
  }

  /**
   * The opening-hours loop: sort a copy of the periods by (day, open time),
   * then scan them, stopping at the first period that makes the place open
   * or that opens later this week.
   */
  method EvaluateHours(periods: Option<seq<Period>>, now: LocalTime) returns (r: Result<Hours, HoursError>)
    ensures r == HoursStatus(periods, now)
  {
    var currentTime := CurrentTime(now);
    var isClosed := true;
    var nextOpenClose: Option<int> := None;
    var nextDay: int := now.day;
    if periods.Some? {
      var sortedPeriods := SortBy(periods.value, OpensNoLater);
      var i := 0;
      while i < |sortedPeriods|
        invariant 0 <= i <= |sortedPeriods|
        invariant forall j :: 0 <= j < i ==> !Decisive(sortedPeriods[j], now)
        invariant isClosed && nextOpenClose.None? && nextDay == now.day
      {
        var period := sortedPeriods[i];
        var openTime := period.open.time;
        var closeTime := if period.close.Some? then period.close.value.time else 2359;
        var periodDay := period.open.day;
        if closeTime < openTime {
          if now.day == periodDay && currentTime < closeTime {
            FirstDecisiveAt(sortedPeriods, now, i);
            if period.close.None? {
              // `period.close.time` throws
              return Err(MissingCloseTime);
            }
            isClosed := false;
            nextOpenClose := Some(period.close.value.time);
            break;
          }
          if now.day == periodDay && currentTime >= openTime {
            FirstDecisiveAt(sortedPeriods, now, i);
            if period.close.None? {
              return Err(MissingCloseTime);
            }
            isClosed := false;
            nextOpenClose := Some(period.close.value.time);
            nextDay := (periodDay + 1) % 7;
            break;
          }
        } else {
          if now.day == periodDay && currentTime >= openTime && currentTime < closeTime {
            FirstDecisiveAt(sortedPeriods, now, i);
            if period.close.None? {
              return Err(MissingCloseTime);
            }
            isClosed := false;
            nextOpenClose := Some(period.close.value.time);
            break;
          }
        }
        if isClosed {
          if periodDay > now.day || (periodDay == now.day && openTime > currentTime) {
            nextOpenClose := Some(period.open.time);
            nextDay := periodDay;
            FirstDecisiveAt(sortedPeriods, now, i);
            break;
          }
        }
        i := i + 1;
      }
      if i == |sortedPeriods| {
        FirstDecisiveAt(sortedPeriods, now, i);
      }
    }
    r := Ok(Hours(isClosed, nextOpenClose, nextDay));
  }

  lemma SortedPeriodsOrdered(ps: seq<Period>)
    ensures SortedBy(SortBy(ps, OpensNoLater), OpensNoLater)
    ensures forall p :: p in SortBy(ps, OpensNoLater) <==> p in ps
  {
    OpensNoLaterIsPreorder();
    SortBySorted(ps, OpensNoLater);
    forall p ensures p in SortBy(ps, OpensNoLater) <==> p in ps {
      SortBySameElements(ps, OpensNoLater, p);
    }
  }

  /** The first decisive period of the sorted copy opens no later than any decisive period. */
  lemma EarliestInSorted(ps: seq<Period>, now: LocalTime, k: nat)
    requires k < |SortBy(ps, OpensNoLater)|
    requires forall j :: 0 <= j < k ==> !Decisive(SortBy(ps, OpensNoLater)[j], now)
    ensures forall q :: q in ps && Decisive(q, now) ==> OpensNoLater(SortBy(ps, OpensNoLater)[k], q)
  {
    var sorted := SortBy(ps, OpensNoLater);
    OpensNoLaterIsPreorder();
    SortBySorted(ps, OpensNoLater);
    forall q | q in ps && Decisive(q, now)
      ensures OpensNoLater(sorted[k], q)
    {
      SortBySameElements(ps, OpensNoLater, q);
      var m :| 0 <= m < |sorted| && sorted[m] == q;
      if m > k {
        assert SortedBy(sorted, OpensNoLater);
      }
    }
  }

  /**
   * When the scan stops, it stops at a period of the details that is
   * decisive and opens no later than any decisive period, and the status is
   * that period's verdict.
   */
  lemma DecidingPeriod(ps: seq<Period>, now: LocalTime) returns (p: Period)
    requires HoursStatus(Some(ps), now) != Ok(Hours(true, None, now.day))
    ensures p in ps && Decisive(p, now)
    ensures forall q :: q in ps && Decisive(q, now) ==> OpensNoLater(p, q)
    ensures HoursStatus(Some(ps), now) == Verdict(p, now)
  {
    var sorted := SortBy(ps, OpensNoLater);
    var k := FirstDecisive(sorted, now);
    p := sorted[k];
    SortBySameElements(ps, OpensNoLater, p);
    EarliestInSorted(ps, now, k);
  }

  /**
   * Open means: the earliest (by day, then time) of the periods at which the
   * scan would stop makes the place open now and has a closing time, which is
   * reported; the next day is the day after for an overnight period entered
   * after its opening (at or past its closing time), and today otherwise.
   */
  lemma HoursOpen(periods: Option<seq<Period>>, now: LocalTime)
    requires HoursStatus(periods, now).Ok? && !HoursStatus(periods, now).value.isClosed
    ensures var h := HoursStatus(periods, now).value;
      exists p :: p in PeriodList(periods) && OpenNow(p, now) && p.close.Some?
        && (forall q :: q in PeriodList(periods) && Decisive(q, now) ==> OpensNoLater(p, q))
        && h.nextOpenClose == Some(p.close.value.time)
        && h.nextDay == (if Overnight(p) && CurrentTime(now) >= p.close.value.time then (now.day + 1) % 7 else now.day)
  {
    assert periods.Some?;
    var p := DecidingPeriod(periods.value, now);
    assert OpenNow(p, now) && p.close.Some?;
  }

  /**
   * Closed with a next opening: it is the earliest (by day, then time) of the
   * periods at which the scan would stop, it is not open now but opens later
   * this week, and the reported day is never before today (no wrap to next
   * week).
   */
  lemma HoursClosedNext(periods: Option<seq<Period>>, now: LocalTime, t: int, d: int)
    requires HoursStatus(periods, now) == Ok(Hours(true, Some(t), d))
    ensures now.day <= d
    ensures exists p :: (p in PeriodList(periods) && OpensLater(p, now) && !OpenNow(p, now) && p.open == Moment(d, t)
      && forall q :: q in PeriodList(periods) && Decisive(q, now) ==> OpensNoLater(p, q))
  {
    assert periods.Some?;
    var p := DecidingPeriod(periods.value, now);
    assert !OpenNow(p, now);
  }

  /**
   * Closed with nothing next and today's day exactly when no period opens now
   * or later this week; in particular nothing wraps to the next week.
   */
  lemma HoursClosedNothingNext(periods: Option<seq<Period>>, now: LocalTime)
    ensures HoursStatus(periods, now) == Ok(Hours(true, None, now.day))
      <==> forall p :: p in PeriodList(periods) ==> !Decisive(p, now)
    ensures HoursStatus(periods, now).Ok? && HoursStatus(periods, now).value.nextOpenClose.None?
      ==> HoursStatus(periods, now) == Ok(Hours(true, None, now.day))
  {
    if periods.Some? {
      var ps := periods.value;
      var sorted := SortBy(ps, OpensNoLater);
      SortedPeriodsOrdered(ps);
      var k := FirstDecisive(sorted, now);
      if k < |sorted| {
        assert sorted[k] in ps;
      } else {
        forall p | p in ps ensures !Decisive(p, now) {
          assert p in sorted;
        }
      }
    }
  }

  /**
   * The evaluator fails only when the earliest (by day, then time) of the
   * periods at which the scan would stop makes the place open now and has
   * no closing time.
   */
  lemma HoursFailure(periods: Option<seq<Period>>, now: LocalTime)
    requires HoursStatus(periods, now).Err?
    ensures exists p :: (p in PeriodList(periods) && OpenNow(p, now) && p.close.None?
      && forall q :: q in PeriodList(periods) && Decisive(q, now) ==> OpensNoLater(p, q))
  {
    assert periods.Some?;
    var p := DecidingPeriod(periods.value, now);
    assert OpenNow(p, now);
  }

  /**
   * Period i of the details decides: it is decisive, opens no later than any
   * decisive period, and opens strictly earlier than every decisive period
   * listed before it (the sort is stable, so among periods with the same
   * opening the first listed wins).
   */
  lemma DecidedByVerdict(ps: seq<Period>, now: LocalTime, i: nat)
    requires i < |ps| && Decisive(ps[i], now)
    requires forall j :: 0 <= j < |ps| && Decisive(ps[j], now) ==> OpensNoLater(ps[i], ps[j])
    requires forall j :: 0 <= j < i && Decisive(ps[j], now) ==> !OpensNoLater(ps[j], ps[i])
    ensures HoursStatus(Some(ps), now) == Verdict(ps[i], now)
  {
    OpensNoLaterIsPreorder();
    var k := SortByFirstMinimal(ps, OpensNoLater, p => Decisive(p, now), i);
    FirstDecisiveAt(SortBy(ps, OpensNoLater), now, k);
  }

  /**
   * The earliest decisive period decides the outcome (among periods with the
   * same opening, the first listed): open now without a closing time fails;
   * open now reports its closing time and the day it falls on; otherwise
   * closed, reporting its opening time and day.
   */
  lemma HoursDecidedBy(ps: seq<Period>, now: LocalTime, i: nat)
    requires i < |ps| && Decisive(ps[i], now)
    requires forall j :: 0 <= j < |ps| && Decisive(ps[j], now) ==> OpensNoLater(ps[i], ps[j])
    requires forall j :: 0 <= j < i && Decisive(ps[j], now) ==> !OpensNoLater(ps[j], ps[i])
    ensures var p := ps[i];
      && (OpenNow(p, now) && p.close.None? ==> HoursStatus(Some(ps), now) == Err(MissingCloseTime))
      && (OpenNow(p, now) && p.close.Some? ==>
            HoursStatus(Some(ps), now) == Ok(Hours(false, Some(p.close.value.time),
              if Overnight(p) && CurrentTime(now) >= p.close.value.time then (now.day + 1) % 7 else now.day)))
      && (!OpenNow(p, now) ==> HoursStatus(Some(ps), now) == Ok(Hours(true, Some(p.open.time), p.open.day)))
  {
    DecidedByVerdict(ps, now, i);
  }

  /**
   * The evaluator fails when the period that opens first among those at
   * which the scan would stop (every other one opens strictly later) makes
   * the place open now and has no closing time.
   */
  lemma HoursFailsAt(periods: Option<seq<Period>>, now: LocalTime, p: Period)
    requires p in PeriodList(periods) && OpenNow(p, now) && p.close.None?
    requires forall q :: q in PeriodList(periods) && Decisive(q, now) && q != p ==> !OpensNoLater(q, p)
    ensures HoursStatus(periods, now) == Err(MissingCloseTime)
  {
    var ps := periods.value;
    var i := FindFirst(ps, q => q == p).value;
    forall j | 0 <= j < |ps| && Decisive(ps[j], now)
      ensures OpensNoLater(p, ps[j])
    {
      assert ps[j] in ps;
    }
    forall j | 0 <= j < i && Decisive(ps[j], now)
      ensures !OpensNoLater(ps[j], p)
    {
      assert ps[j] in ps;
    }
    DecidedByVerdict(ps, now, i);
  }

  // ---- The place record and the final list ----

  datatype Photo = Photo(
    thumbnail: Option<string>, small: Option<string>, medium: Option<string>,
    large: Option<string>, original: Option<string>, caption: Option<string>)

  datatype Cuisine = Cuisine(name: Option<string>)

  datatype HoursInfo = HoursInfo(periods: Option<seq<Period>>, weekdayText: Option<seq<string>>)

  /** The fields of the place-details response the record uses. */
  datatype PlaceDetails = PlaceDetails(
    hours: Option<HoursInfo>, priceLevel: Option<string>, cuisine: Option<seq<Cuisine>>,
    description: Option<string>, phone: Option<string>, website: Option<string>,
    sourceName: Option<string>)

  /**
   * One entry of the nearby-search response. `distance` is the parsed value of
   * the provider's distance text, absent when that text is missing or empty.
   */
  datatype NearbyPlace = NearbyPlace(
    locationId: Option<string>, name: Option<string>, address: Option<string>,
    distance: Option<real>, bearing: Option<string>)

  /**
   * How the per-place requests went: details not OK, an exception anywhere
   * (a failed fetch, unparsable JSON, the time-zone lookup), or details
   * fetched together with the photos list (absent when the photo request
   * failed or returned no data), the time-zone id and the local clock.
   */
  datatype Lookup =
    | DetailsNotOk
    | Raised
    | Fetched(details: PlaceDetails, photos: Option<seq<Photo>>, timeZoneId: Option<string>, now: LocalTime)

  datatype Candidate = Candidate(place: NearbyPlace, lookup: Lookup)

  /** The place record the tool returns. */
  datatype Place = Place(
    name: string, timezone: string, placeId: string, vicinity: string, distance: real,
    bearing: string, kind: string, priceLevel: string, cuisine: string, description: string,
    phone: string, website: string, isClosed: bool, hours: seq<string>,
    nextOpenClose: Option<int>, nextDay: int, periods: seq<Period>, photos: seq<Photo>,
    source: string)

  function WithMedium(p: Photo): Option<Photo> {
    if Truthy(p.medium) then Some(p) else None
  }

  /**
   * Photos that have a medium-size URL: exactly those, in order and each
   * once; none when the photo request failed.
   */
  function KeptPhotos(photos: Option<seq<Photo>>): (r: seq<Photo>)
    ensures forall q :: q in r ==> Truthy(q.medium) && q in photos.GetOr([])
    ensures forall q :: q in photos.GetOr([]) && Truthy(q.medium) ==> q in r
    ensures var all := photos.GetOr([]);
      var idx := KeptPositions(all, WithMedium);
      && |idx| == |r| && Increasing(idx)
      && (forall i :: 0 <= i < |all| ==> (Truthy(all[i].medium) <==> i in idx))
      && forall j :: 0 <= j < |idx| ==> idx[j] < |all| && r[j] == all[idx[j]]
  {
    var all := photos.GetOr([]);
    var r := FilterMap(all, WithMedium);
    var idx := KeptPositions(all, WithMedium);
    KeptPositionsExact(all, WithMedium);
    forall j | 0 <= j < |r| ensures Truthy(r[j].medium) && r[j] in all {
      FilterMapFrom(all, WithMedium, j);
    }
    forall q | q in all && Truthy(q.medium) ensures q in r {
      var i :| 0 <= i < |all| && all[i] == q;
      FilterMapKeeps(all, WithMedium, i);
    }
    forall j | 0 <= j < |idx| ensures r[j] == all[idx[j]] {
      assert WithMedium(all[idx[j]]) == Some(r[j]);
    }
    r
  }

  function CuisineName(cuisine: Option<seq<Cuisine>>): string {
    if cuisine.Some? && |cuisine.value| > 0 then Or(cuisine.value[0].name, "") else ""
  }

  function HoursOf(details: PlaceDetails): Option<seq<Period>> {
    if details.hours.Some? then details.hours.value.periods else None
  }

  /** The record for one place, or `None` (the source's `null`) when the place is dropped. */
  function BuildPlace(c: Candidate, kind: string): Option<Place> {
    if !Truthy(c.place.locationId) then None
    else match c.lookup
      case DetailsNotOk => None
      case Raised => None
      case Fetched(details, photos, tz, now) =>
        match HoursStatus(HoursOf(details), now)
        case Err(_) => None
        case Ok(h) =>
          Some(Place(
            name := Or(c.place.name, "Unnamed Place"),
            timezone := Or(tz, "UTC"),
            placeId := c.place.locationId.value,
            vicinity := Or(c.place.address, ""),
            distance := c.place.distance.GetOr(0.0),
            bearing := Or(c.place.bearing, ""),
            kind := kind,
            priceLevel := Or(details.priceLevel, ""),
            cuisine := CuisineName(details.cuisine),
            description := Or(details.description, ""),
            phone := Or(details.phone, ""),
            website := Or(details.website, ""),
            isClosed := h.isClosed,
            hours := if details.hours.Some? then details.hours.value.weekdayText.GetOr([]) else [],
            nextOpenClose := h.nextOpenClose,
            nextDay := h.nextDay,
            periods := PeriodList(HoursOf(details)),
            photos := KeptPhotos(photos),
            source := Or(details.sourceName, "TripAdvisor")))
  }

  function Builder(kind: string): Candidate -> Option<Place> {
    c => BuildPlace(c, kind)
  }

  /** The sort comparator's "not after" on places: by distance. */
  predicate NoFarther(a: Place, b: Place) {
    a.distance <= b.distance
  }

  datatype LatLng = LatLng(lat: real, lng: real)

  /** The nearby-search response: not OK (with its status), or a body whose `data` may be absent. */
  datatype NearbyResponse = NotOk(status: int) | Body(data: Option<seq<Candidate>>)

  datatype NearbyResult = NearbyResult(results: seq<Place>, center: LatLng)

  datatype NearbyError = NearbySearchFailed(status: int)

  /** The tool's result for the search centre `center` and place type `kind`. */
  function Nearby(center: LatLng, response: NearbyResponse, kind: string): (r: Result<NearbyResult, NearbyError>)
    ensures r.Err? <==> response.NotOk?
    ensures r.Err? ==> r.error.status == response.status
    ensures r.Ok? ==> r.value.center == center && |r.value.results| <= |response.data.GetOr([])|
    ensures response.Body? && (response.data.None? || response.data.value == []) ==> r == Ok(NearbyResult([], center))
  {
    match response
    case NotOk(status) => Err(NearbySearchFailed(status))
    case Body(data) =>
      if data.None? || data.value == [] then Ok(NearbyResult([], center))
      else Ok(NearbyResult(SortBy(FilterMap(data.value, Builder(kind)), NoFarther), center))
  }

  /** A place is dropped exactly when it has no location id, its lookup failed, or its hours failed. */
  lemma BuildPlaceDrops(c: Candidate, kind: string)
    ensures BuildPlace(c, kind).None? <==>
      || !Truthy(c.place.locationId)
      || !c.lookup.Fetched?
      || HoursStatus(HoursOf(c.lookup.details), c.lookup.now).Err?
  {
  }

  /**
   * A kept place reports the hours status of its periods, keeps the periods
   * in their original order (the evaluator sorted a copy), carries the
   * provider's location id and distance (0 when missing) and the photos
   * with a medium URL, and takes each text field from the provider when it
   * is truthy and its default ('Unnamed Place', 'UTC', 'TripAdvisor' or '')
   * otherwise.
   */
  lemma BuildPlaceRecord(c: Candidate, kind: string)
    requires BuildPlace(c, kind).Some?
    ensures var p := BuildPlace(c, kind).value;
      var periods := HoursOf(c.lookup.details);
      && HoursStatus(periods, c.lookup.now) == Ok(Hours(p.isClosed, p.nextOpenClose, p.nextDay))
      && p.periods == PeriodList(periods)
      && Some(p.placeId) == c.place.locationId && p.placeId != ""
      && p.distance == c.place.distance.GetOr(0.0)
      && p.kind == kind
      && p.photos == KeptPhotos(c.lookup.photos)
    ensures var p := BuildPlace(c, kind).value;
      var place, d, tz := c.place, c.lookup.details, c.lookup.timeZoneId;
      && p.name == (if Truthy(place.name) then place.name.value else "Unnamed Place")
      && p.timezone == (if Truthy(tz) then tz.value else "UTC")
      && p.vicinity == (if Truthy(place.address) then place.address.value else "")
      && p.bearing == (if Truthy(place.bearing) then place.bearing.value else "")
      && p.priceLevel == (if Truthy(d.priceLevel) then d.priceLevel.value else "")
      && p.description == (if Truthy(d.description) then d.description.value else "")
      && p.phone == (if Truthy(d.phone) then d.phone.value else "")
      && p.website == (if Truthy(d.website) then d.website.value else "")
      && p.source == (if Truthy(d.sourceName) then d.sourceName.value else "TripAdvisor")
    ensures var p := BuildPlace(c, kind).value;
      var d := c.lookup.details;
      && (d.cuisine.Some? && |d.cuisine.value| > 0 && Truthy(d.cuisine.value[0].name) ==>
            p.cuisine == d.cuisine.value[0].name.value)
      && (d.cuisine.None? || d.cuisine.value == [] || !Truthy(d.cuisine.value[0].name) ==> p.cuisine == "")
      && (d.hours.Some? && d.hours.value.weekdayText.Some? ==> p.hours == d.hours.value.weekdayText.value)
      && (d.hours.None? || d.hours.value.weekdayText.None? ==> p.hours == [])
  {
  }

  lemma NoFartherIsPreorder()
    ensures TotalPreorder(NoFarther)
  {
  }

  /**
   * The results are sorted by distance, and they are exactly the places that
   * were built, each as often as it was built; the centre is echoed back.
   */
  lemma NearbyResults(center: LatLng, response: NearbyResponse, kind: string)
    requires Nearby(center, response, kind).Ok?
    ensures var r := Nearby(center, response, kind).value;
      && r.center == center
      && SortedBy(r.results, NoFarther)
      && multiset(r.results) == multiset(FilterMap(response.data.GetOr([]), Builder(kind)))
  {
    NoFartherIsPreorder();
    var data := response.data.GetOr([]);
    SortBySorted(FilterMap(data, Builder(kind)), NoFarther);
  }

  /** Every result comes from a candidate with a location id whose lookup succeeded. */
  lemma NearbyResultFrom(center: LatLng, response: NearbyResponse, kind: string, p: Place)
    requires Nearby(center, response, kind).Ok? && p in Nearby(center, response, kind).value.results
    ensures exists c :: (c in response.data.GetOr([]) && BuildPlace(c, kind) == Some(p)
      && Truthy(c.place.locationId) && c.lookup.Fetched?)
  {
    var data := response.data.value;
    var kept := FilterMap(data, Builder(kind));
    assert Nearby(center, response, kind).value.results == SortBy(kept, NoFarther);
    SortBySameElements(kept, NoFarther, p);
    var j :| 0 <= j < |kept| && kept[j] == p;
    FilterMapFrom(data, Builder(kind), j);
    var i :| 0 <= i < |data| && Builder(kind)(data[i]) == Some(p);
    assert data[i] in data;
  }

  /** Every candidate that yields a record appears in the results. */
  lemma NearbyKeepsBuilt(center: LatLng, response: NearbyResponse, kind: string, c: Candidate)
    requires response.Body? && c in response.data.GetOr([]) && BuildPlace(c, kind).Some?
    ensures Nearby(center, response, kind).Ok?
    ensures BuildPlace(c, kind).value in Nearby(center, response, kind).value.results
  {
    var data := response.data.value;
    var i :| 0 <= i < |data| && data[i] == c;
    assert Builder(kind)(data[i]) == BuildPlace(c, kind);
    FilterMapKeeps(data, Builder(kind), i);
    SortBySameElements(FilterMap(data, Builder(kind)), NoFarther, BuildPlace(c, kind).value);
  }
}
