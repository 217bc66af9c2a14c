/**
 * The user's routing preferences: an allow-list of shipping companies, an avoid-list of
 * ports and a ceiling on a single leg's duration, each switched on by its own flag.
 * A constraint whose flag is off always passes.
 */
module Preferences {
  import opened Schedule

  datatype UserPreferences = UserPreferences(
    preferredCompanies: seq<string>,
    avoidPorts: seq<string>,
    maxVoyageTime: int,
    hasCompanyFilter: bool,
    hasPortFilter: bool,
    hasTimeFilter: bool)

  /** The early-return membership scan over a list of names. */
  function Contains(names: seq<string>, name: string): (b: bool)
    ensures b <==> name in names
  {
    if names == [] then false
    else if names[0] == name then true
    else Contains(names[1..], name)
  }

  function PortIsAvoid(portName: string, prefs: UserPreferences): (b: bool)
    ensures !prefs.hasPortFilter ==> !b
    ensures prefs.hasPortFilter ==> (b <==> portName in prefs.avoidPorts)
  {
    if !prefs.hasPortFilter then false
    else Contains(prefs.avoidPorts, portName)
  }

  function RouteHasPreferredCompany(route: Route, prefs: UserPreferences): (b: bool)
    ensures !prefs.hasCompanyFilter ==> b
    ensures prefs.hasCompanyFilter ==> (b <==> route.company in prefs.preferredCompanies)
  {
    if !prefs.hasCompanyFilter then true
    else Contains(prefs.preferredCompanies, route.company)
  }

  function RouteMatchesPreferences(route: Route, prefs: UserPreferences): (b: bool)
    ensures b <==>
      (!prefs.hasCompanyFilter || route.company in prefs.preferredCompanies) &&
      (!prefs.hasTimeFilter || route.travelTime <= prefs.maxVoyageTime)
  {
    if !RouteHasPreferredCompany(route, prefs) then false
    else if prefs.hasTimeFilter && route.travelTime > prefs.maxVoyageTime then false
    else true
  }
}
