/**
 * A journey being assembled leg by leg in the planner, and the check that a port can be
 * slotted between two neighbours of such a journey.
 */
module Journeys {
  import opened Schedule
  import opened Itineraries
  import opened Network

  /** One leg of a journey under construction; a leg not (yet) marked valid adds nothing to the totals. */
  datatype JourneyLeg = JourneyLeg(fromPortIdx: int, toPortIdx: int, route: Route, isValid: bool)

  function ValidLegCost(legs: seq<JourneyLeg>): int {
    if legs == [] then 0
    else ValidLegCost(legs[..|legs| - 1]) + (if legs[|legs| - 1].isValid then legs[|legs| - 1].route.cost else 0)
  }

  function ValidLegTime(legs: seq<JourneyLeg>): int {
    if legs == [] then 0
    else ValidLegTime(legs[..|legs| - 1]) + (if legs[|legs| - 1].isValid then legs[|legs| - 1].route.travelTime else 0)
  }

  /** The scheduled legs of the journey legs marked valid, in order. */
  function ValidRoutes(legs: seq<JourneyLeg>): seq<Route> {
    if legs == [] then []
    else ValidRoutes(legs[..|legs| - 1]) + (if legs[|legs| - 1].isValid then [legs[|legs| - 1].route] else [])
  }

  function RoutesOf(legs: seq<JourneyLeg>): seq<Route> {
    seq(|legs|, i requires 0 <= i < |legs| => legs[i].route)
  }

  /** The journey's leg sums are the itinerary sums over its valid legs alone. */
  lemma {:induction false} ValidSumsAreLegSums(legs: seq<JourneyLeg>)
    ensures ValidLegCost(legs) == LegCost(ValidRoutes(legs))
    ensures ValidLegTime(legs) == LegTime(ValidRoutes(legs))
  {
    if legs != [] {
      var init := legs[..|legs| - 1];
      ValidSumsAreLegSums(init);
      var last := legs[|legs| - 1];
      if last.isValid {
        var r := ValidRoutes(init) + [last.route];
        assert r[..|r| - 1] == ValidRoutes(init) && r[|r| - 1] == last.route;
      } else {
        assert ValidRoutes(legs) == ValidRoutes(init) + [] == ValidRoutes(init);
      }
    }
  }

  /** When every leg is valid, the valid legs are all the legs. */
  lemma {:induction false} AllValidRoutes(legs: seq<JourneyLeg>)
    requires forall i :: 0 <= i < |legs| ==> legs[i].isValid
    ensures ValidRoutes(legs) == RoutesOf(legs)
  {
    if legs != [] {
      var init := legs[..|legs| - 1];
      AllValidRoutes(init);
      assert RoutesOf(legs) == RoutesOf(init) + [legs[|legs| - 1].route];
    }
  }

  /**
   * A journey whose legs are all valid has the totals the route enumerator gives the same
   * ports and legs.
   */
  lemma JourneyTotalsMatchItinerary(ports: seq<Port>, path: seq<int>, legs: seq<JourneyLeg>)
    requires InRange(ports, path)
    requires forall i :: 0 <= i < |legs| ==> legs[i].isValid
    ensures ValidLegCost(legs) + PortFees(ports, path) == MakeCompleteRoute(ports, path, RoutesOf(legs)).totalCost
    ensures ValidLegTime(legs) == MakeCompleteRoute(ports, path, RoutesOf(legs)).totalTime
  {
    ValidSumsAreLegSums(legs);
    AllValidRoutes(legs);
  }

  class MultiLegJourney {
    var portPath: seq<int>
    var legs: seq<JourneyLeg>
    var totalCost: int
    var totalTime: int
    var isComplete: bool

    /** Recompute the totals: valid legs' prices and durations, plus the fee of every port after the first. */
    method CalculateTotals(g: Graph)
      requires InRange(g.ports, portPath)
      modifies this
      ensures portPath == old(portPath) && legs == old(legs) && isComplete == old(isComplete)
      ensures totalCost == ValidLegCost(legs) + PortFees(g.ports, portPath)
      ensures totalTime == ValidLegTime(legs)
    {
      var path, journeyLegs := portPath, legs;
      var cost, time := 0, 0;
      var i := 0;
      while i < |journeyLegs|
        invariant 0 <= i <= |journeyLegs|
        invariant cost == ValidLegCost(journeyLegs[..i]) && time == ValidLegTime(journeyLegs[..i])
      {
        assert journeyLegs[..i + 1][..i] == journeyLegs[..i];
        if journeyLegs[i].isValid {
          cost := cost + journeyLegs[i].route.cost;
          time := time + journeyLegs[i].route.travelTime;
        }
        i := i + 1;
      }
      assert journeyLegs[..i] == journeyLegs;
      if |path| > 0 {
        var j := 1;
        while j < |path|
          invariant 1 <= j <= |path|
          invariant InRange(g.ports, path[..j])
          invariant cost == ValidLegCost(journeyLegs) + PortFees(g.ports, path[..j])
        {
          assert path[..j + 1][..j] == path[..j];
          cost := cost + g.ports[path[j]].cost;
          j := j + 1;
        }
        assert path[..j] == path;
      }
      totalCost, totalTime := cost, time;
    }
  }

  /**
   * A port can go between the journey neighbours `beforePortIdx` and `afterPortIdx` (-1 for
   * none): a direct leg must lead into it from the one before and out of it to the one after.
   */
  function CanPortBeInserted(g: Graph, newPortIdx: int, beforePortIdx: int, afterPortIdx: int,
                             isAddingBefore: bool): (b: bool)
    reads g
    requires g.Valid()
    ensures b <==> (beforePortIdx != -1 ==> g.HasDirectRoute(beforePortIdx, newPortIdx)) &&
                   (afterPortIdx != -1 ==> g.HasDirectRoute(newPortIdx, afterPortIdx))
  {
    if beforePortIdx == -1 && afterPortIdx != -1 then g.HasDirectRoute(newPortIdx, afterPortIdx)
    else if beforePortIdx != -1 && afterPortIdx == -1 then g.HasDirectRoute(beforePortIdx, newPortIdx)
    else if beforePortIdx != -1 && afterPortIdx != -1 then
      g.HasDirectRoute(beforePortIdx, newPortIdx) && g.HasDirectRoute(newPortIdx, afterPortIdx)
    else true
  }

  /** An accepted insertion between two neighbours has a concrete leg on each side. */
  lemma InsertionHasLegs(g: Graph, newPortIdx: int, beforePortIdx: int, afterPortIdx: int, isAddingBefore: bool)
    requires g.Valid() && beforePortIdx != -1 && afterPortIdx != -1
    requires CanPortBeInserted(g, newPortIdx, beforePortIdx, afterPortIdx, isAddingBefore)
    ensures 0 <= newPortIdx < |g.ports| && 0 <= beforePortIdx < |g.ports| && 0 <= afterPortIdx < |g.ports|
    ensures g.GetRouteBetween(beforePortIdx, newPortIdx).Some? && g.GetRouteBetween(newPortIdx, afterPortIdx).Some?
  {
    g.DirectRouteHasLeg(beforePortIdx, newPortIdx);
    g.DirectRouteHasLeg(newPortIdx, afterPortIdx);
  }
}
