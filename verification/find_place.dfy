/**
 * The find-place tool: Google forward geocoding of the query and Mapbox
 * reverse geocoding of a `[latitude, longitude]` pair, merged into one
 * feature list (Google's features first) with both attributions.
 */
module FindPlace {
  import opened Common
  import opened Strings

  /** A Google geocoding result (the fields the tool reads). */
  datatype GoogleResult = GoogleResult(
    placeId: string, formattedAddress: string, lat: real, lng: real,
    types: seq<string>, addressComponents: Json, viewport: Json)

  /** The Google response body; `results` may be absent. */
  datatype GoogleData = GoogleData(status: string, results: Option<seq<GoogleResult>>)

  /** A Mapbox reverse-geocoding feature (the fields the tool reads). */
  datatype MapboxFeature = MapboxFeature(
    id: Json, namePreferred: Option<string>, name: Option<string>, fullAddress: Option<string>,
    geometry: Json, featureType: Option<string>, context: Json, coordinates: Json, bbox: Json)

  /** The Mapbox response body; `features` may be absent. */
  datatype MapboxData = MapboxData(features: Option<seq<MapboxFeature>>)

  /** `{ type: 'Point', coordinates }`. */
  datatype Point = Point(kind: string, coordinates: seq<real>)

  /** A returned feature, tagged with the provider it came from. */
  datatype Feature =
    | FromGoogle(
        id: string, name: string, formattedAddress: string, point: Point,
        featureType: Option<string>, addressComponents: Json, viewport: Json,
        placeId: string, source: string)
    | FromMapbox(
        mapboxId: Json, mapboxName: Option<string>, fullAddress: Option<string>, geometry: Json,
        mapboxType: Option<string>, context: Json, coordinates: Json, bbox: Json, source: string)

  datatype FindPlaceResult = FindPlaceResult(
    features: seq<Feature>, googleAttribution: string, mapboxAttribution: string)

  const GoogleAttribution := "Powered by Google Maps Platform"
  const MapboxAttribution := "Powered by Mapbox"

  /** The reverse-geocoding request: `const [lat, lng] = coordinates`, missing entries undefined. */
  datatype ReverseRequest = ReverseRequest(longitude: Option<real>, latitude: Option<real>)

  function ReverseRequestFor(coordinates: seq<real>): (q: ReverseRequest)
    ensures |coordinates| >= 2 ==> q == ReverseRequest(Some(coordinates[1]), Some(coordinates[0]))
    ensures |coordinates| < 2 ==> q.longitude.None?
    ensures q.latitude.Some? <==> |coordinates| >= 1
  {
    var lat := if |coordinates| >= 1 then Some(coordinates[0]) else None;
    var lng := if |coordinates| >= 2 then Some(coordinates[1]) else None;
    ReverseRequest(lng, lat)
  }

  /** `formatted_address.split(',')[0]`. */
  function PlaceName(address: string): string {
    Split(address, ',')[0]
  }

  /** The name is the address up to its first comma, or the whole address when it has none. */
  lemma PlaceNameBeforeComma(a: string, b: string)
    requires ',' !in a
    ensures PlaceName(a + "," + b) == a
    ensures PlaceName(a) == a
  {
    SplitAtFirstSeparator(a, b, ',');
    SplitWithoutSeparator(a, ',');
  }

  function GoogleFeature(r: GoogleResult): (f: Feature)
    ensures f.FromGoogle? && f.source == "google"
    ensures f.point.coordinates == [r.lng, r.lat]
  {
    FromGoogle(
      r.placeId, PlaceName(r.formattedAddress), r.formattedAddress, Point("Point", [r.lng, r.lat]),
      if |r.types| > 0 then Some(r.types[0]) else None,
      r.addressComponents, r.viewport, r.placeId, "google")
  }

  function MapboxFeatureOf(m: MapboxFeature): (f: Feature)
    ensures f.FromMapbox? && f.source == "mapbox"
    ensures Truthy(m.namePreferred) ==> f.mapboxName == m.namePreferred
    ensures !Truthy(m.namePreferred) ==> f.mapboxName == m.name
  {
    FromMapbox(
      m.id, OrElse(m.namePreferred, m.name), m.fullAddress, m.geometry,
      m.featureType, m.context, m.coordinates, m.bbox, "mapbox")
  }

  function MapGoogle(rs: seq<GoogleResult>): (fs: seq<Feature>)
    ensures |fs| == |rs|
    ensures forall k :: 0 <= k < |rs| ==> fs[k] == GoogleFeature(rs[k])
  {
    if rs == [] then [] else [GoogleFeature(rs[0])] + MapGoogle(rs[1..])
  }

  function MapMapbox(ms: seq<MapboxFeature>): (fs: seq<Feature>)
    ensures |fs| == |ms|
    ensures forall k :: 0 <= k < |ms| ==> fs[k] == MapboxFeatureOf(ms[k])
  {
    if ms == [] then [] else [MapboxFeatureOf(ms[0])] + MapMapbox(ms[1..])
  }

  /** Google contributes features exactly when its status is OK and its result list is non-empty. */
  predicate GoogleIncluded(g: GoogleData)
    requires g.status == "OK" ==> g.results.Some?
  {
    g.status == "OK" && |g.results.value| > 0
  }

  predicate MapboxIncluded(m: MapboxData) {
    m.features.Some? && |m.features.value| > 0
  }

  /** Why the tool throws: a provider request failed, or an OK Google body had no result list. */
  datatype FindPlaceError = RequestFailed(reason: string) | ResultsMissing

  /**
   * The tool's `execute`. The two geocoding calls are the parameters
   * `forward` (the query to Google) and `reverse` (the reverse request to
   * Mapbox); either may fail (a rejected fetch or a body that is not JSON),
   * and an OK Google status without a result list fails on `.length`; the
   * first failure in request order is rethrown.
   */
  method Execute(
    query: string, coordinates: seq<real>,
    forward: string -> Result<GoogleData, string>,
    reverse: ReverseRequest -> Result<MapboxData, string>)
    returns (r: Result<FindPlaceResult, FindPlaceError>)
    ensures var google, mapbox := forward(query), reverse(ReverseRequestFor(coordinates));
      && (google.Err? ==> r == Err(RequestFailed(google.error)))
      && (google.Ok? && mapbox.Err? ==> r == Err(RequestFailed(mapbox.error)))
      && (google.Ok? && mapbox.Ok? ==>
           (r == Err(ResultsMissing) <==> google.value.status == "OK" && google.value.results.None?))
      && (google.Ok? && mapbox.Ok? && !(google.value.status == "OK" && google.value.results.None?) ==>
           r == Ok(Assemble(google.value, mapbox.value)))
  {
    var google := forward(query);
    if google.Err? {
      return Err(RequestFailed(google.error));
    }
    var mapbox := reverse(ReverseRequestFor(coordinates));
    if mapbox.Err? {
      return Err(RequestFailed(mapbox.error));
    }
    var g, m := google.value, mapbox.value;
    var features: seq<Feature> := [];
    if g.status == "OK" {
      if g.results.None? {
        return Err(ResultsMissing);
      }
      if |g.results.value| > 0 {
        features := features + MapGoogle(g.results.value);
      }
    }
    assert features == if GoogleIncluded(g) then MapGoogle(g.results.value) else [];
    if m.features.Some? && |m.features.value| > 0 {
      features := features + MapMapbox(m.features.value);
    }
    assert features == Assemble(g, m).features;
    r := Ok(FindPlaceResult(features, GoogleAttribution, MapboxAttribution));
  }

  /** The returned record: the included Google features, then the included Mapbox features. */
  function Assemble(g: GoogleData, m: MapboxData): (r: FindPlaceResult)
    requires g.status == "OK" ==> g.results.Some?
    ensures r.googleAttribution == GoogleAttribution && r.mapboxAttribution == MapboxAttribution
    ensures |r.features| ==
      (if GoogleIncluded(g) then |g.results.value| else 0) +
      (if MapboxIncluded(m) then |m.features.value| else 0)
  {
    var fromGoogle := if GoogleIncluded(g) then MapGoogle(g.results.value) else [];
    var fromMapbox := if MapboxIncluded(m) then MapMapbox(m.features.value) else [];
    FindPlaceResult(fromGoogle + fromMapbox, GoogleAttribution, MapboxAttribution)
  }

  /**
   * Every Google feature precedes every Mapbox feature; the k-th Google
   * feature is built from the k-th Google result and the k-th Mapbox feature
   * from the k-th Mapbox feature.
   */
  lemma AssembleOrder(g: GoogleData, m: MapboxData)
    requires g.status == "OK" ==> g.results.Some?
    ensures var fs := Assemble(g, m).features;
      var n := if GoogleIncluded(g) then |g.results.value| else 0;
      && (forall k :: 0 <= k < |fs| ==> (fs[k].FromGoogle? <==> k < n))
      && (forall k :: 0 <= k < n ==> fs[k] == GoogleFeature(g.results.value[k]))
      && (forall k :: n <= k < |fs| ==> fs[k] == MapboxFeatureOf(m.features.value[k - n]))
  {
    var n := if GoogleIncluded(g) then |g.results.value| else 0;
    var fromGoogle := if GoogleIncluded(g) then MapGoogle(g.results.value) else [];
    var fromMapbox := if MapboxIncluded(m) then MapMapbox(m.features.value) else [];
    var fs := Assemble(g, m).features;
    assert fs == fromGoogle + fromMapbox;
    forall k | n <= k < |fs| ensures fs[k] == MapboxFeatureOf(m.features.value[k - n]) {
      assert fs[k] == fromMapbox[k - n];
    }
  }

  /** Features tagged 'google' come only from Google, those tagged 'mapbox' only from Mapbox. */
  lemma AssembleSources(g: GoogleData, m: MapboxData)
    requires g.status == "OK" ==> g.results.Some?
    ensures forall f :: f in Assemble(g, m).features ==>
      (f.FromGoogle? && f.source == "google") || (f.FromMapbox? && f.source == "mapbox")
  {
    AssembleOrder(g, m);
  }
}
