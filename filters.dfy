/**
 * The filtered copy of the schedule that the preference filter builds: the ports that are
 * not avoided, and per port the legs that neither leave nor enter an avoided port and match
 * the company and duration constraints.
 */
module Filters {
  import opened Schedule
  import opened Preferences

  datatype FilteredGraphData = FilteredGraphData(allowedPorts: seq<int>, filteredRoutes: seq<seq<Route>>)

  /** The indices below n of the ports that are not avoided, in increasing order. */
  function AllowedPortsUpTo(ports: seq<Port>, prefs: UserPreferences, n: nat): seq<int>
    requires n <= |ports|
  {
    if n == 0 then []
    else AllowedPortsUpTo(ports, prefs, n - 1) + (if !PortIsAvoid(ports[n - 1].name, prefs) then [n - 1] else [])
  }

  /** A leg out of port `fromName` survives the filter. */
  predicate KeepsLeg(fromName: string, prefs: UserPreferences, route: Route) {
    !PortIsAvoid(fromName, prefs) && !PortIsAvoid(route.destination, prefs) && RouteMatchesPreferences(route, prefs)
  }

  /** The legs of a row that survive the filter, in their original order. */
  function KeptLegs(fromName: string, prefs: UserPreferences, legs: seq<Route>): seq<Route> {
    if legs == [] then []
    else
      KeptLegs(fromName, prefs, legs[..|legs| - 1]) +
      (if KeepsLeg(fromName, prefs, legs[|legs| - 1]) then [legs[|legs| - 1]] else [])
  }

  /** The allowed list holds exactly the non-avoided ports, each once, in increasing order. */
  lemma {:induction false} AllowedPortsExactly(ports: seq<Port>, prefs: UserPreferences, n: nat)
    requires n <= |ports|
    ensures forall x :: x in AllowedPortsUpTo(ports, prefs, n) <==> 0 <= x < n && !PortIsAvoid(ports[x].name, prefs)
    ensures forall i, j :: 0 <= i < j < |AllowedPortsUpTo(ports, prefs, n)| ==>
      AllowedPortsUpTo(ports, prefs, n)[i] < AllowedPortsUpTo(ports, prefs, n)[j]
  {
    if n > 0 {
      AllowedPortsExactly(ports, prefs, n - 1);
      var before := AllowedPortsUpTo(ports, prefs, n - 1);
      forall i | 0 <= i < |before| ensures before[i] < n - 1 {
        assert before[i] in before;
      }
    }
  }

  /** A leg is kept exactly when it is in the row and passes the filter; the row never grows. */
  lemma {:induction false} KeptLegsExactly(fromName: string, prefs: UserPreferences, legs: seq<Route>)
    ensures forall x :: x in KeptLegs(fromName, prefs, legs) <==> x in legs && KeepsLeg(fromName, prefs, x)
    ensures |KeptLegs(fromName, prefs, legs)| <= |legs|
  {
    if legs != [] {
      var init := legs[..|legs| - 1];
      KeptLegsExactly(fromName, prefs, init);
      assert legs == init + [legs[|legs| - 1]];
    }
  }

  /** Every leg out of an avoided port is dropped. */
  lemma {:induction false} AvoidedPortKeepsNoLeg(fromName: string, prefs: UserPreferences, legs: seq<Route>)
    requires PortIsAvoid(fromName, prefs)
    ensures KeptLegs(fromName, prefs, legs) == []
  {
    if legs != [] {
      AvoidedPortKeepsNoLeg(fromName, prefs, legs[..|legs| - 1]);
    }
  }
}
