/**
 * The text-search tool: a Mapbox Search Box forward query whose URL
 * parameters are set one by one (`URLSearchParams.set`), and the mapping of
 * the returned features to `{ name, location: { lat, lng }, vicinity }`.
 */
module TextSearch {
  import opened Common
  import opened Strings

  /** The query parameters of a URL, in order. */
  type Params = seq<(string, string)>

  /** `params.get(key)`: the value of the first entry with that key. */
  function Lookup(ps: Params, key: string): (r: Option<string>)
  {
    if ps == [] then None
    else if ps[0].0 == key then Some(ps[0].1)
    else Lookup(ps[1..], key)
  }

  /** Entries with other keys, in order. */
  function Without(ps: Params, key: string): (r: Params)
    ensures forall k :: 0 <= k < |r| ==> r[k].0 != key
    ensures forall other :: other != key ==> Lookup(r, other) == Lookup(ps, other)
  {
    if ps == [] then []
    else if ps[0].0 == key then Without(ps[1..], key)
    else [ps[0]] + Without(ps[1..], key)
  }

  /**
   * `params.set(key, value)`: the first entry with that key takes the value
   * and the others with that key go; with no such entry, one is appended.
   */
  function SetParam(ps: Params, key: string, value: string): (r: Params)
    ensures Lookup(r, key) == Some(value)
    ensures forall other :: other != key ==> Lookup(r, other) == Lookup(ps, other)
  {
    if ps == [] then [(key, value)]
    else if ps[0].0 == key then [(key, value)] + Without(ps[1..], key)
    else [ps[0]] + SetParam(ps[1..], key, value)
  }

  predicate DistinctKeys(ps: Params) {
    forall j, k :: 0 <= j < k < |ps| ==> ps[j].0 != ps[k].0
  }

  /** Setting a parameter keeps every key present once. */
  lemma {:induction false} SetParamDistinct(ps: Params, key: string, value: string)
    requires DistinctKeys(ps)
    ensures DistinctKeys(SetParam(ps, key, value))
    ensures |SetParam(ps, key, value)| == if Lookup(ps, key).Some? then |ps| else |ps| + 1
  {
    if ps != [] {
      if ps[0].0 == key {
        WithoutAbsent(ps[1..], key);
      } else {
        SetParamDistinct(ps[1..], key, value);
        var r := SetParam(ps[1..], key, value);
        forall k | 0 <= k < |r| ensures r[k].0 != ps[0].0 {
          KeyOfSetParam(ps[1..], key, value, k);
        }
      }
    }
  }

  lemma {:induction false} WithoutAbsent(ps: Params, key: string)
    requires forall k :: 0 <= k < |ps| ==> ps[k].0 != key
    ensures Without(ps, key) == ps
  {
    if ps != [] {
      WithoutAbsent(ps[1..], key);
    }
  }

  lemma {:induction false} KeyOfSetParam(ps: Params, key: string, value: string, k: nat)
    requires k < |SetParam(ps, key, value)|
    ensures var r := SetParam(ps, key, value); r[k].0 == key || exists j :: 0 <= j < |ps| && ps[j].0 == r[k].0
  {
    var r := SetParam(ps, key, value);
    if ps != [] && ps[0].0 != key && k > 0 {
      KeyOfSetParam(ps[1..], key, value, k - 1);
      if r[k].0 != key {
        var j :| 0 <= j < |ps[1..]| && ps[1..][j].0 == r[k].0;
        assert ps[j + 1].0 == r[k].0;
      }
    } else if ps != [] && ps[0].0 == key && k > 0 {
      var w := Without(ps[1..], key);
      assert r[k] == w[k - 1];
      WithoutOrigin(ps[1..], key, k - 1);
      var j :| 0 <= j < |ps[1..]| && ps[1..][j] == w[k - 1];
      assert ps[j + 1].0 == r[k].0;
    }
  }

  lemma {:induction false} WithoutOrigin(ps: Params, key: string, k: nat)
    requires k < |Without(ps, key)|
    ensures exists j :: 0 <= j < |ps| && ps[j] == Without(ps, key)[k]
  {
    if ps[0].0 == key {
      WithoutOrigin(ps[1..], key, k);
      var j :| 0 <= j < |ps[1..]| && ps[1..][j] == Without(ps, key)[k];
      assert ps[j + 1] == ps[1..][j];
    } else if k > 0 {
      WithoutOrigin(ps[1..], key, k - 1);
      var j :| 0 <= j < |ps[1..]| && ps[1..][j] == Without(ps, key)[k];
      assert ps[j + 1] == ps[1..][j];
    }
  }

  /** The `searchParams` of the request URL. */
  class SearchParams {
    var entries: Params

    constructor ()
      ensures entries == []
    {
      entries := [];
    }

    function Get(key: string): Option<string>
      reads this
    {
      Lookup(entries, key)
    }

    method Set(key: string, value: string)
      modifies this
      ensures entries == SetParam(old(entries), key, value)
    {
      entries := SetParam(entries, key, value);
    }
  }

  const Limit := "5"
  const Types := "country,region,place,locality,neighborhood,street,address,poi"

  /**
   * How numbers render, which the model leaves to the caller:
   * `numberText(part)` is `${Number(part)}` and `bboxText(latPart, lngPart,
   * radius)` is the bounding box computed from those parts and the radius.
   */
  datatype Rendering = Rendering(numberText: string -> string, bboxText: (string, Option<string>, real) -> string)

  /** `${lng},${lat}` where `[lat, lng] = location.split(',').map(Number)`; a missing longitude renders as `undefined`. */
  function Proximity(location: string, render: Rendering): string {
    var parts := Split(location, ',');
    (if |parts| >= 2 then render.numberText(parts[1]) else "undefined") + "," + render.numberText(parts[0])
  }

  /** A location "lat,lng" gives the proximity "lng,lat"; one without a comma gives "undefined,lat". */
  lemma ProximitySwaps(lat: string, lng: string, render: Rendering)
    requires ',' !in lat && ',' !in lng
    ensures Proximity(lat + "," + lng, render) == render.numberText(lng) + "," + render.numberText(lat)
    ensures Proximity(lat, render) == "undefined," + render.numberText(lat)
  {
    SplitAtFirstSeparator(lat, lng, ',');
    SplitWithoutSeparator(lng, ',');
    SplitWithoutSeparator(lat, ',');
  }

  datatype TextSearchError = MissingToken | HttpError(status: int, body: string) | RequestFailed(reason: string)

  /** The parameters set after the token, query, limit and types: proximity and then bbox, when they apply. */
  function LocationParams(ps: Params, location: Option<string>, radius: Option<real>, render: Rendering): Params {
    if !Truthy(location) then ps
    else
      var withProximity := SetParam(ps, "proximity", Proximity(location.value, render));
      if radius.Some? && radius.value > 0.0 then
        var parts := Split(location.value, ',');
        var lng := if |parts| >= 2 then Some(parts[1]) else None;
        SetParam(withProximity, "bbox", render.bboxText(parts[0], lng, radius.value))
      else withProximity
  }

  /** The token, query, limit and types, set in that order on empty parameters. */
  function FixedParams(token: string, query: string): Params {
    SetParam(SetParam(SetParam(SetParam([], "access_token", token), "q", query), "limit", Limit), "types", Types)
  }

  /** The request's parameters, in the order the tool sets them. */
  function RequestParams(token: string, query: string, location: Option<string>, radius: Option<real>,
                         render: Rendering): Params {
    LocationParams(FixedParams(token, query), location, radius, render)
  }

  lemma FixedParamsContents(token: string, query: string)
    ensures var ps := FixedParams(token, query);
      && DistinctKeys(ps)
      && Lookup(ps, "access_token") == Some(token)
      && Lookup(ps, "q") == Some(query)
      && Lookup(ps, "limit") == Some(Limit)
      && Lookup(ps, "types") == Some(Types)
      && Lookup(ps, "proximity").None? && Lookup(ps, "bbox").None?
  {
    var p1 := SetParam([], "access_token", token);
    var p2 := SetParam(p1, "q", query);
    var p3 := SetParam(p2, "limit", Limit);
    var p4 := SetParam(p3, "types", Types);
    assert Lookup(p4, "access_token") == Lookup(p3, "access_token") == Lookup(p2, "access_token") == Some(token);
    assert Lookup(p4, "q") == Lookup(p3, "q") == Some(query);
    assert Lookup(p4, "limit") == Some(Limit);
    assert Lookup(p4, "proximity") == Lookup(p3, "proximity") == Lookup(p2, "proximity") == Lookup(p1, "proximity");
    assert Lookup(p4, "bbox") == Lookup(p3, "bbox") == Lookup(p2, "bbox") == Lookup(p1, "bbox");
    FixedParamsDistinct(token, query);
  }

  lemma FixedParamsDistinct(token: string, query: string)
    ensures DistinctKeys(FixedParams(token, query))
  {
    var p1 := SetParam([], "access_token", token);
    var p2 := SetParam(p1, "q", query);
    var p3 := SetParam(p2, "limit", Limit);
    SetParamDistinct([], "access_token", token);
    SetParamDistinct(p1, "q", query);
    SetParamDistinct(p2, "limit", Limit);
    SetParamDistinct(p3, "types", Types);
  }

  lemma LocationParamsContents(ps: Params, location: Option<string>, radius: Option<real>, render: Rendering)
    requires DistinctKeys(ps) && Lookup(ps, "proximity").None? && Lookup(ps, "bbox").None?
    ensures var r := LocationParams(ps, location, radius, render);
      && DistinctKeys(r)
      && (forall key :: key != "proximity" && key != "bbox" ==> Lookup(r, key) == Lookup(ps, key))
      && Lookup(r, "proximity") == (if Truthy(location) then Some(Proximity(location.value, render)) else None)
      && (Lookup(r, "bbox").Some? <==> Truthy(location) && radius.Some? && radius.value > 0.0)
  {
    if Truthy(location) {
      var p5 := SetParam(ps, "proximity", Proximity(location.value, render));
      SetParamDistinct(ps, "proximity", Proximity(location.value, render));
      if radius.Some? && radius.value > 0.0 {
        var parts := Split(location.value, ',');
        var lng := if |parts| >= 2 then Some(parts[1]) else None;
        SetParamDistinct(p5, "bbox", render.bboxText(parts[0], lng, radius.value));
      }
    }
  }

  /**
   * The request carries the token, the query, limit 5 and the fixed type
   * list, each once; proximity exactly when a location is given, and bbox
   * exactly when a location and a positive radius are given.
   */
  lemma RequestParamsContents(token: string, query: string, location: Option<string>, radius: Option<real>,
                              render: Rendering)
    ensures var ps := RequestParams(token, query, location, radius, render);
      && DistinctKeys(ps)
      && Lookup(ps, "access_token") == Some(token)
      && Lookup(ps, "q") == Some(query)
      && Lookup(ps, "limit") == Some(Limit)
      && Lookup(ps, "types") == Some(Types)
      && Lookup(ps, "proximity") == (if Truthy(location) then Some(Proximity(location.value, render)) else None)
      && (Lookup(ps, "bbox").Some? <==> Truthy(location) && radius.Some? && radius.value > 0.0)
  {
    FixedParamsContents(token, query);
    LocationParamsContents(FixedParams(token, query), location, radius, render);
  }

  /**
   * The tool's parameter building: the missing-token error is thrown before
   * any parameter is set; otherwise each parameter is set on the URL's
   * search parameters in turn.
   */
  method BuildParams(token: Option<string>, query: string, location: Option<string>, radius: Option<real>,
                     render: Rendering)
    returns (r: Result<Params, TextSearchError>)
    ensures r.Err? <==> !Truthy(token)
    ensures r.Err? ==> r.error == MissingToken
    ensures r.Ok? ==> r.value == RequestParams(token.value, query, location, radius, render)
  {
    if !Truthy(token) {
      return Err(MissingToken);
    }
    var params := new SearchParams();
    params.Set("access_token", token.value);
    params.Set("q", query);
    params.Set("limit", Limit);
    params.Set("types", Types);
    if Truthy(location) {
      params.Set("proximity", Proximity(location.value, render));
      if radius.Some? && radius.value > 0.0 {
        var parts := Split(location.value, ',');
        var lng := if |parts| >= 2 then Some(parts[1]) else None;
        params.Set("bbox", render.bboxText(parts[0], lng, radius.value));
      }
    }
    r := Ok(params.entries);
  }

  /** A feature's properties (the fields the tool reads). */
  datatype Properties = Properties(name: Option<string>, fullAddress: Option<string>, placeFormatted: Option<string>)

  /** A returned feature: `[lng, lat]` coordinates and properties, which may be absent. */
  datatype TextFeature = TextFeature(coordinates: seq<real>, properties: Option<Properties>)

  /** `{ name, location: { lat, lng }, vicinity }`; a coordinate that is not there is undefined. */
  datatype Place = Place(name: Option<string>, lat: Option<real>, lng: Option<real>, vicinity: Option<string>)

  function At(xs: seq<real>, i: nat): Option<real> {
    if i < |xs| then Some(xs[i]) else None
  }

  function PlaceOf(f: TextFeature): (p: Place)
    ensures |f.coordinates| >= 2 ==> p.lat == Some(f.coordinates[1]) && p.lng == Some(f.coordinates[0])
  {
    var props := f.properties.GetOr(Properties(None, None, None));
    Place(props.name, At(f.coordinates, 1), At(f.coordinates, 0),
          OrElse(props.fullAddress, OrElse(props.placeFormatted, props.name)))
  }

  /** `vicinity` is the full address, else the formatted place, else the name, skipping empty strings. */
  lemma VicinityFallback(f: TextFeature)
    requires f.properties.Some?
    ensures var pr := f.properties.value; var v := PlaceOf(f).vicinity;
      && (Truthy(pr.fullAddress) ==> v == pr.fullAddress)
      && (!Truthy(pr.fullAddress) && Truthy(pr.placeFormatted) ==> v == pr.placeFormatted)
      && (!Truthy(pr.fullAddress) && !Truthy(pr.placeFormatted) ==> v == pr.name)
  {
  }

  function MapPlaces(fs: seq<TextFeature>): (r: seq<Place>)
    ensures |r| == |fs|
    ensures forall k :: 0 <= k < |fs| ==> r[k] == PlaceOf(fs[k])
  {
    if fs == [] then [] else [PlaceOf(fs[0])] + MapPlaces(fs[1..])
  }

  /** The response: a rejected request, a non-OK status with its body, or the features (which may be absent). */
  datatype Response = Rejected(reason: string) | NotOk(status: int, body: string) | Features(features: Option<seq<TextFeature>>)

  /**
   * The tool's `execute`, with the request made by `fetch`: no request
   * without a token, a non-OK response throws, and the features map in
   * order to places.
   */
  method Execute(token: Option<string>, query: string, location: Option<string>, radius: Option<real>,
                 render: Rendering, fetch: Params -> Response)
    returns (r: Result<seq<Place>, TextSearchError>, sent: Option<Params>)
    ensures sent.None? <==> !Truthy(token)
    ensures !Truthy(token) ==> r == Err(MissingToken)
    ensures sent.Some? ==> sent.value == RequestParams(token.value, query, location, radius, render)
    ensures sent.Some? ==> match fetch(sent.value)
      case Rejected(e) => r == Err(RequestFailed(e))
      case NotOk(status, body) => r == Err(HttpError(status, body))
      case Features(fs) => r == Ok(MapPlaces(fs.GetOr([])))
  {
    var built := BuildParams(token, query, location, radius, render);
    if built.Err? {
      return Err(built.error), None;
    }
    sent := Some(built.value);
    var response := fetch(built.value);
    match response
    case Rejected(e) => r := Err(RequestFailed(e));
    case NotOk(status, body) => r := Err(HttpError(status, body));
    case Features(fs) => r := Ok(MapPlaces(fs.GetOr([])));
  }
}
