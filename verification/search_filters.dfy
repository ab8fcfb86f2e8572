/**
 * The online-filter rules of the event search: the three filter modes,
 * the event type each mode asks the search for (`getEventTypeForFilter`),
 * and the mode read back from the `online` URL query parameter
 * (`parseOnlineFilterFromUrl`).
 */
module SearchFilters {
  import opened Text

  /** The online-filter modes. */
  datatype OnlineFilter = NoFilter | OnlineOnly | IncludeOnline

  /** The event types the search query accepts. */
  datatype EventType = IN_PERSON | ONLINE

  /** The value a mode is written as in the URL ("none", "online_only", "include_online"). */
  function FilterName(f: OnlineFilter): (name: string)
    ensures name != ""
  {
    match f
    case NoFilter => "none"
    case OnlineOnly => "online_only"
    case IncludeOnline => "include_online"
  }

  /** The type name sent to the server ("IN_PERSON", "ONLINE"). */
  function EventTypeName(t: EventType): (name: string)
    ensures name != ""
  {
    match t
    case IN_PERSON => "IN_PERSON"
    case ONLINE => "ONLINE"
  }

  /**
   * `getEventTypeForFilter(mode)`: online events only for "online_only",
   * no type restriction for "include_online", and in-person events for
   * "none" (the `default` branch of the switch joins "none").
   */
  function GetEventTypeForFilter(f: OnlineFilter): (t: Option<EventType>)
    // only "include_online" leaves the type unset, so that every event is shown
    ensures t == None <==> f == IncludeOnline
    // online events are asked for only when the user asked for them alone
    ensures t == Some(ONLINE) <==> f == OnlineOnly
    ensures t == Some(IN_PERSON) <==> f == NoFilter
  {
    match f
    case OnlineOnly => Some(ONLINE)
    case IncludeOnline => None
    case NoFilter => Some(IN_PERSON)
  }

  /**
   * `parseOnlineFilterFromUrl(queryParam)`: the mode whose name is the
   * parameter, and "none" for a missing parameter, "" or any other value.
   */
  function ParseOnlineFilterFromUrl(queryParam: Option<string>): (f: OnlineFilter)
    // a mode other than "none" is only ever read from its own name
    ensures f == NoFilter || queryParam == Some(FilterName(f))
  {
    if queryParam == Some("online_only") then OnlineOnly
    else if queryParam == Some("include_online") then IncludeOnline
    else NoFilter
  }

  /** Reading back the value a mode is written as gives that mode. */
  lemma ParseRoundTrip(f: OnlineFilter)
    ensures ParseOnlineFilterFromUrl(Some(FilterName(f))) == f
  {
  }

  /** Distinct modes are written as distinct values. */
  lemma FilterNamesDistinct(f: OnlineFilter, g: OnlineFilter)
    requires FilterName(f) == FilterName(g)
    ensures f == g
  {
    ParseRoundTrip(f);
    ParseRoundTrip(g);
  }

  /** A value that is not the name of "online_only" or "include_online" gives "none". */
  lemma UnrecognisedValueMeansNoFilter(queryParam: Option<string>)
    requires queryParam != Some(FilterName(OnlineOnly)) && queryParam != Some(FilterName(IncludeOnline))
    ensures ParseOnlineFilterFromUrl(queryParam) == NoFilter
  {
  }

  /**
   * Reading a mode from the URL and then asking for its event type: the
   * search goes unrestricted exactly for "include_online", asks for online
   * events exactly for "online_only", and for in-person events for every
   * other value, the missing parameter included.
   */
  lemma EventTypeFromUrl(queryParam: Option<string>)
    ensures GetEventTypeForFilter(ParseOnlineFilterFromUrl(queryParam)) == None <==>
              queryParam == Some("include_online")
    ensures GetEventTypeForFilter(ParseOnlineFilterFromUrl(queryParam)) == Some(ONLINE) <==>
              queryParam == Some("online_only")
    ensures queryParam != Some("include_online") && queryParam != Some("online_only") ==>
              GetEventTypeForFilter(ParseOnlineFilterFromUrl(queryParam)) == Some(IN_PERSON)
  {
  }
}
