/**
 * The planner tab's flow (app.py:111-125): resolve both fields, and when the
 * button was pressed and both resolved, ask for directions.
 */
module Planner {
  import opened Wrappers
  import Location
  import Directions

  /** `parse_location(text) if text else None` (app.py:111-112): an empty field is not looked up. */
  function Resolve(text: string, apiKey: string, geocoder: Location.GeocodeQuery -> Location.GeocodeReply)
    : (r: Result<Option<Location.Coord>, Raised>)
    ensures text == [] ==> r == Ok(None)
    ensures text != [] ==> r == Location.ParseLocation(text, apiKey, geocoder)
    ensures r.Err? ==> text != [] && r == Location.FromGeocoder(geocoder(Location.GeocodeQuery(apiKey, text)))
    ensures r.Ok? && r.value.Some? ==> text != []
  {
    if text == [] then Ok(None) else Location.ParseLocation(text, apiKey, geocoder)
  }

  /**
   * One run of the planner tab. Both fields are resolved on every run; an
   * exception from either stops the run. Directions are fetched only when the
   * button was pressed and both ends resolved.
   */
  function Plan(origin: string, destination: string, mode: string, pressed: bool, apiKey: string,
                show: real -> string,
                geocoder: Location.GeocodeQuery -> Location.GeocodeReply,
                service: Directions.Request -> Directions.Reply): (r: Result<Option<Directions.RouteResult>, Raised>)
    ensures r.Ok? && r.value.Some? ==> pressed && origin != [] && destination != []
    ensures !pressed ==> r.Ok? ==> r.value.None?
    ensures var from := Resolve(origin, apiKey, geocoder);
      from.Err? ==> r == Err(from.error)
    ensures var from, to := Resolve(origin, apiKey, geocoder), Resolve(destination, apiKey, geocoder);
      from.Ok? && to.Err? ==> r == Err(to.error)
    ensures var from, to := Resolve(origin, apiKey, geocoder), Resolve(destination, apiKey, geocoder);
      pressed && from.Ok? && from.value.Some? && to.Ok? && to.value.Some? ==>
        r == match Directions.GetDirections(from.value.value, to.value.value, mode, apiKey, show, service)
             case Err(e) => Err(e)
             case Ok(d) => Ok(Some(d))
    ensures var from, to := Resolve(origin, apiKey, geocoder), Resolve(destination, apiKey, geocoder);
      from.Ok? && to.Ok? && !(pressed && from.value.Some? && to.value.Some?) ==> r == Ok(None)
  {
    match Resolve(origin, apiKey, geocoder)
    case Err(e) => Err(e)
    case Ok(from) =>
      match Resolve(destination, apiKey, geocoder)
      case Err(e) => Err(e)
      case Ok(to) =>
        if pressed && from.Some? && to.Some? then
          match Directions.GetDirections(from.value, to.value, mode, apiKey, show, service)
          case Err(e) => Err(e)
          case Ok(d) => Ok(Some(d))
        else Ok(None)
  }

  /**
   * Two typed pairs and a press of the button: the directions are those
   * between the pairs as written, and the geocoder plays no part.
   */
  lemma TypedPairsSkipGeocoder(m1: Location.PairMatch, m2: Location.PairMatch, mode: string, apiKey: string,
                               show: real -> string,
                               geocoder: Location.GeocodeQuery -> Location.GeocodeReply,
                               service: Directions.Request -> Directions.Reply)
    requires Location.Matches(m1) && Location.Matches(m2)
    ensures var from := Location.Coord(Location.Value(m1.first), Location.Value(m1.second));
      var to := Location.Coord(Location.Value(m2.first), Location.Value(m2.second));
      Plan(Location.Render(m1), Location.Render(m2), mode, true, apiKey, show, geocoder, service)
        == match Directions.GetDirections(from, to, mode, apiKey, show, service)
           case Err(e) => Err(e)
           case Ok(d) => Ok(Some(d))
  {
    Location.PairInWrittenOrder(m1, apiKey, geocoder);
    Location.PairInWrittenOrder(m2, apiKey, geocoder);
    assert Location.Render(m1) != [] && Location.Render(m2) != [];
  }
}
