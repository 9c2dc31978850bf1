/**
 * get_directions (app.py:44-68): the travel-mode table, the request sent to the
 * directions endpoint, and the reshaping of its reply. The HTTP call is a
 * parameter, the reply it gives; turning floats into text is the parameter
 * `show`, standing for Python's str() of a float.
 */
module Directions {
  import opened Wrappers
  import opened Strings
  import Location
  import Duration

  type Coord = Location.Coord

  /** The routing profile of each travel mode; any other mode is not in the table. */
  function Profile(mode: string): (r: Option<string>)
    ensures r.Some? <==> mode == "Car" || mode == "Walk" || mode == "Bike"
  {
    if mode == "Car" then Some("driving-car")
    else if mode == "Walk" then Some("foot-walking")
    else if mode == "Bike" then Some("cycling-regular")
    else None
  }

  /** The three modes select three different profiles. */
  lemma ProfilesDistinct(m1: string, m2: string)
    requires Profile(m1).Some? && Profile(m1) == Profile(m2)
    ensures m1 == m2
  {
  }

  const Endpoint := "https://api.openrouteservice.org/v2/directions/"

  /** The query app.py:50-56 sends. */
  datatype Request = Request(url: string, apiKey: string, start: string, end: string)

  /**
   * A coordinate as the endpoint wants it: "lon,lat", the tuple's second item
   * first. It reads back as longitude then latitude, as long as the text of a
   * number has no comma (Python's str() of a float never has).
   */
  function WirePoint(c: Coord, show: real -> string): (w: string)
    ensures ',' !in show(c.lon) ==> SplitAt(w, ',') == Some((show(c.lon), show(c.lat)))
  {
    var w := show(c.lon) + "," + show(c.lat);
    assert w == show(c.lon) + [','] + show(c.lat);
    if ',' in show(c.lon) then w
    else
      SplitAtJoin(show(c.lon), ',', show(c.lat));
      w
  }

  /** The request for a mode in the table, or None for a mode the table lacks. */
  function RequestFor(origin: Coord, dest: Coord, mode: string, apiKey: string, show: real -> string): (r: Option<Request>)
    ensures r.Some? <==> Profile(mode).Some?
    ensures r.Some? ==> r.value.url == Endpoint + Profile(mode).value
    ensures r.Some? ==> r.value.apiKey == apiKey
  {
    match Profile(mode)
    case None => None
    case Some(profile) => Some(Request(Endpoint + profile, apiKey, WirePoint(origin, show), WirePoint(dest, show)))
  }

  /** The request carries each end of the trip in "lon,lat" order. */
  lemma RequestEndsLonLat(origin: Coord, dest: Coord, mode: string, apiKey: string, show: real -> string)
    requires Profile(mode).Some?
    requires ',' !in show(origin.lon) && ',' !in show(dest.lon)
    ensures SplitAt(RequestFor(origin, dest, mode, apiKey, show).value.start, ',') == Some((show(origin.lon), show(origin.lat)))
    ensures SplitAt(RequestFor(origin, dest, mode, apiKey, show).value.end, ',') == Some((show(dest.lon), show(dest.lat)))
  {
  }

  /**
   * What app.py reads from one route feature: geometry.coordinates, and the
   * summary already turned into kilometres and whole minutes (the rounding of
   * app.py:62-63 is not modelled).
   */
  datatype Feature = Feature(coordinates: seq<seq<real>>, distanceKm: real, durationMin: int)

  datatype Reply = Reply(status: int, features: seq<Feature>)

  /** The four values get_directions returns. */
  datatype RouteResult = RouteResult(route: seq<Coord>, tooltip: string, distanceKm: real, durationMin: int)

  /** The fixed result of a failed request, app.py:68. */
  const NoRoute := RouteResult([], "", 0.0, 0)

  /** The route as the endpoint sends it: [lon, lat] per point. */
  function ToWire(route: seq<Coord>): (w: seq<seq<real>>)
    ensures |w| == |route|
    ensures forall i :: 0 <= i < |route| ==> w[i] == Location.Position(route[i])
  {
    if route == [] then [] else [Location.Position(route[0])] + ToWire(route[1..])
  }

  /**
   * `[(y, x) for x, y in route]` (app.py:60): every [x, y] becomes (y, x) in the
   * same order; the first point whose list is not of length 2 raises.
   */
  function SwapAll(points: seq<seq<real>>): (r: Result<seq<Coord>, Raised>)
    ensures r.Ok? <==> forall i :: 0 <= i < |points| ==> |points[i]| == 2
    ensures r.Ok? ==> |r.value| == |points|
    ensures r.Ok? ==> forall i :: 0 <= i < |points| ==> r.value[i] == Location.Coord(points[i][1], points[i][0])
    ensures r.Err? ==> exists k :: 0 <= k < |points| && |points[k]| != 2 && r.error == UnpackError(|points[k]|)
                                   && forall j :: 0 <= j < k ==> |points[j]| == 2
  {
    if points == [] then Ok([])
    else if |points[0]| != 2 then Err(UnpackError(|points[0]|))
    else
      match SwapAll(points[1..])
      case Err(e) => Err(e)
      case Ok(rest) => Ok([Location.Coord(points[0][1], points[0][0])] + rest)
  }

  /** Swapping back what SwapAll produced gives the reply's geometry again. */
  lemma SwapAllInverse(points: seq<seq<real>>)
    requires SwapAll(points).Ok?
    ensures ToWire(SwapAll(points).value) == points
  {
    var w := ToWire(SwapAll(points).value);
    forall i | 0 <= i < |points| ensures w[i] == points[i] {
      assert |points[i]| == 2;
    }
  }

  /** And swapping a route out to the wire and back gives the route. */
  lemma {:induction false} ToWireInverse(route: seq<Coord>)
    ensures SwapAll(ToWire(route)) == Ok(route)
  {
    if route != [] {
      ToWireInverse(route[1..]);
      assert ToWire(route)[1..] == ToWire(route[1..]);
      assert [route[0]] + route[1..] == route;
    }
  }

  /** The map tooltip of app.py:64. */
  function Tooltip(distanceKm: real, durationMin: int, show: real -> string): (t: string)
    ensures var l := Duration.Label(durationMin);
      |l| <= |t| && t[|t| - |l|..] == l && Duration.ParseLabel(t[|t| - |l|..]) == Some(durationMin)
    ensures var d := "Distance: " + show(distanceKm);
      |d| <= |t| && t[..|d|] == d
  {
    var d := "Distance: " + show(distanceKm);
    var l := Duration.Label(durationMin);
    var t := d + " km | Duration: " + l;
    assert t[|t| - |l|..] == l;
    assert t[..|d|] == d;
    t
  }

  /** The reply handling of app.py:57-68; only features[0] is read. */
  function FromReply(reply: Reply, show: real -> string): (r: Result<RouteResult, Raised>)
    ensures reply.status != 200 ==> r == Ok(NoRoute)
    ensures reply.status == 200 && reply.features == [] ==> r == Err(IndexError)
    ensures reply.status == 200 && reply.features != [] ==>
      (r.Err? <==> SwapAll(reply.features[0].coordinates).Err?)
    ensures reply.status == 200 && reply.features != [] && r.Err? ==>
      r == Err(SwapAll(reply.features[0].coordinates).error)
    ensures r.Ok? && reply.status == 200 ==> ToWire(r.value.route) == reply.features[0].coordinates
    ensures r.Ok? && reply.status == 200 ==>
      r.value.distanceKm == reply.features[0].distanceKm && r.value.durationMin == reply.features[0].durationMin
  {
    if reply.status != 200 then Ok(NoRoute)
    else if reply.features == [] then Err(IndexError)
    else
      var f := reply.features[0];
      match SwapAll(f.coordinates)
      case Err(e) => Err(e)
      case Ok(route) =>
        SwapAllInverse(f.coordinates);
        Ok(RouteResult(route, Tooltip(f.distanceKm, f.durationMin, show), f.distanceKm, f.durationMin))
  }

  /** get_directions, app.py:44-68. */
  function GetDirections(origin: Coord, dest: Coord, mode: string, apiKey: string,
                         show: real -> string, service: Request -> Reply): (r: Result<RouteResult, Raised>)
    ensures Profile(mode).None? ==> r == Err(KeyError(mode))
    ensures Profile(mode).Some? ==> r == FromReply(service(RequestFor(origin, dest, mode, apiKey, show).value), show)
  {
    match RequestFor(origin, dest, mode, apiKey, show)
    case None => Err(KeyError(mode))
    case Some(request) => FromReply(service(request), show)
  }

  /** An unknown mode fails before any request: the service is never consulted. */
  lemma UnknownModeSendsNothing(origin: Coord, dest: Coord, mode: string, apiKey: string,
                                show: real -> string, s1: Request -> Reply, s2: Request -> Reply)
    requires Profile(mode).None?
    ensures GetDirections(origin, dest, mode, apiKey, show, s1) == GetDirections(origin, dest, mode, apiKey, show, s2)
  {
  }

  /** A failed request gives the fixed empty result. */
  lemma FailureIsEmpty(origin: Coord, dest: Coord, mode: string, apiKey: string,
                       show: real -> string, service: Request -> Reply)
    requires Profile(mode).Some?
    requires service(RequestFor(origin, dest, mode, apiKey, show).value).status != 200
    ensures GetDirections(origin, dest, mode, apiKey, show, service) == Ok(RouteResult([], "", 0.0, 0))
  {
  }

  /**
   * A successful reply whose first feature carries a route gives that route
   * back point by point, with its summary and tooltip; the other features do
   * not matter.
   */
  lemma SuccessReturnsFirstRoute(route: seq<Coord>, distanceKm: real, durationMin: int,
                                 more: seq<Feature>, show: real -> string)
    ensures FromReply(Reply(200, [Feature(ToWire(route), distanceKm, durationMin)] + more), show)
      == Ok(RouteResult(route, Tooltip(distanceKm, durationMin, show), distanceKm, durationMin))
  {
    ToWireInverse(route);
  }

  /** For a mode in the table, a 200 reply without features raises an index error. */
  lemma KnownModeNoFeatures(origin: Coord, dest: Coord, mode: string, apiKey: string,
                            show: real -> string, service: Request -> Reply)
    requires Profile(mode).Some?
    requires service(RequestFor(origin, dest, mode, apiKey, show).value) == Reply(200, [])
    ensures GetDirections(origin, dest, mode, apiKey, show, service) == Err(IndexError)
  {
  }

  /**
   * For a mode in the table, a 200 reply whose first feature holds a point
   * that is not a pair raises an unpack error.
   */
  lemma KnownModeBadPoint(origin: Coord, dest: Coord, mode: string, apiKey: string,
                          show: real -> string, service: Request -> Reply, k: nat)
    requires Profile(mode).Some?
    requires var reply := service(RequestFor(origin, dest, mode, apiKey, show).value);
      reply.status == 200 && reply.features != [] &&
      k < |reply.features[0].coordinates| && |reply.features[0].coordinates[k]| != 2
    ensures var r := GetDirections(origin, dest, mode, apiKey, show, service);
      r.Err? && r.error.UnpackError?
  {
  }

  /**
   * For a mode in the table, a successful reply whose first feature carries a
   * route gives that route back in (lat, lon) order, with its distance,
   * duration and tooltip.
   */
  lemma KnownModeReturnsFirstRoute(origin: Coord, dest: Coord, mode: string, apiKey: string,
                                   show: real -> string, service: Request -> Reply,
                                   route: seq<Coord>, distanceKm: real, durationMin: int, more: seq<Feature>)
    requires Profile(mode).Some?
    requires service(RequestFor(origin, dest, mode, apiKey, show).value)
      == Reply(200, [Feature(ToWire(route), distanceKm, durationMin)] + more)
    ensures GetDirections(origin, dest, mode, apiKey, show, service)
      == Ok(RouteResult(route, Tooltip(distanceKm, durationMin, show), distanceKm, durationMin))
  {
    SuccessReturnsFirstRoute(route, distanceKm, durationMin, more, show);
  }
}
