/**
 * The query parameters of the nearby-events search (`buildQueryParams`):
 * a parameter object that starts with the two common parameters and gets
 * the location, radius and event type filled in according to the location
 * mode.
 */
module CloseEvents {
  import opened Text
  import opened SearchFilters

  /** A parameter value: a boolean, a number or a string. */
  datatype ParamValue = Flag(b: bool) | Number(n: int) | Text(s: string)

  /** The parameter object, property name to value; an unset property is absent. */
  type QueryParams = map<string, ParamValue>

  /** The location modes that search around a geohash: "profile", "last_searched" and "gps". */
  predicate IsLocationMode(locationMode: string) {
    locationMode == "profile" || locationMode == "last_searched" || locationMode == "gps"
  }

  /** The only properties the parameter object can have. */
  const ParamNames: set<string> := {"longEvents", "limit", "location", "radius", "type"}

  /**
   * `buildQueryParams(locationMode, geoHash, radius)`: `longEvents` false
   * and `limit` 93; then, for a location mode with a truthy geohash, the
   * geohash, the radius and in-person events; for "online_only", online
   * events; for "entire_poland" and every other mode, in-person events.
   */
  method BuildQueryParams(locationMode: string, geoHash: Option<string>, radius: int)
    returns (params: QueryParams)
    ensures params.Keys <= ParamNames
    // the common parameters, whatever the mode
    ensures "longEvents" in params && params["longEvents"] == Flag(false)
    ensures "limit" in params && params["limit"] == Number(93)
    // location and radius come together, and only around a truthy geohash
    ensures "location" in params <==> IsLocationMode(locationMode) && Truthy(geoHash)
    ensures "radius" in params <==> "location" in params
    ensures "location" in params ==>
              params["location"] == Text(geoHash.value) && params["radius"] == Number(radius)
    // a search around a place never asks for online events
    ensures "location" in params ==> "type" in params && params["type"] == Text(EventTypeName(IN_PERSON))
    // a location mode without a geohash sets no filter at all
    ensures IsLocationMode(locationMode) && !Truthy(geoHash) ==> params.Keys == {"longEvents", "limit"}
    ensures locationMode == "online_only" ==> "type" in params && params["type"] == Text(EventTypeName(ONLINE))
    ensures !IsLocationMode(locationMode) && locationMode != "online_only" ==>
              "type" in params && params["type"] == Text(EventTypeName(IN_PERSON))
    // online events are asked for only in the "online_only" mode
    ensures "type" in params && params["type"] == Text(EventTypeName(ONLINE)) <==> locationMode == "online_only"
  {
    params := map["longEvents" := Flag(false), "limit" := Number(93)];
    if locationMode == "profile" || locationMode == "last_searched" || locationMode == "gps" {
      if Truthy(geoHash) {
        params := params["location" := Text(geoHash.value)];
        params := params["radius" := Number(radius)];
        params := params["type" := Text("IN_PERSON")];
      }
    } else if locationMode == "online_only" {
      params := params["type" := Text("ONLINE")];
    } else {
      // "entire_poland" and the default branch: only in-person events
      params := params["type" := Text("IN_PERSON")];
    }
  }
}
