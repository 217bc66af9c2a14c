/**
 * The schedule graph: a port table and, parallel to it, one row of outgoing legs per port.
 * The graph grows by appending ports and legs; every query below only reads it.
 */
module Network {
  import opened Wrappers
  import opened Schedule
  import opened Preferences
  import opened Ports
  import opened Filters
  import opened Itineraries
  import opened ShortestPaths

  /** The table after adding `route` out of the port named `src`; an unknown name first gets a port with no fee. */
  function WithRoute(ports: seq<Port>, routes: seq<seq<Route>>, src: string, route: Route): (seq<Port>, seq<seq<Route>>)
    requires |routes| == |ports|
  {
    var i := PortIndex(ports, src);
    if i == -1 then (ports + [Port(src, 0, [])], routes + [[route]])
    else (ports, routes[i := routes[i] + [route]])
  }

  /**
   * Adding a leg keeps the table rectangular, appends at most the origin's port, appends the
   * leg to the row the origin name resolves to and leaves every other row as it was.
   */
  lemma AddRouteAppendsOneLeg(ports: seq<Port>, routes: seq<seq<Route>>, src: string, route: Route)
    requires |routes| == |ports|
    ensures var (ports', routes') := WithRoute(ports, routes, src, route);
      var i := PortIndex(ports', src);
      |routes'| == |ports'| && 0 <= i < |ports'| && ports'[..|ports|] == ports &&
      (PortIndex(ports, src) == -1 ==> ports' == ports + [Port(src, 0, [])] && i == |ports| && routes'[i] == [route]) &&
      (PortIndex(ports, src) != -1 ==> ports' == ports && i == PortIndex(ports, src) && routes'[i] == routes[i] + [route]) &&
      forall j :: 0 <= j < |routes| && j != i ==> routes'[j] == routes[j]
  {
    if PortIndex(ports, src) == -1 {
      PortIndexAppendNew(ports, Port(src, 0, []));
    }
  }

  /**
   * The selection step of the search: the first unvisited port of smallest distance below INF,
   * or -1 when every unvisited port is at INF.
   */
  method ClosestUnvisited(dist: array<int>, visited: array<bool>) returns (u: int)
    requires dist.Length == visited.Length
    ensures u == ClosestAmong(dist[..], visited[..], dist.Length)
    ensures u == -1 <==> forall i :: 0 <= i < dist.Length ==> visited[i] || dist[i] >= INF
    ensures u != -1 ==> (0 <= u < dist.Length && !visited[u] && dist[u] < INF &&
      (forall i :: 0 <= i < dist.Length && !visited[i] ==> dist[u] <= dist[i]) &&
      (forall i :: 0 <= i < u && !visited[i] ==> dist[u] < dist[i]))
  {
    ghost var d, vis := dist[..], visited[..];
    u := -1;
    var minDist := INF;
    var i := 0;
    while i < dist.Length
      invariant 0 <= i <= dist.Length
      invariant u == ClosestAmong(d, vis, i)
      invariant minDist == if u == -1 then INF else d[u]
    {
      assert d[i] == dist[i] && vis[i] == visited[i];
      assert ClosestAmong(d, vis, i + 1) == if !vis[i] && d[i] < minDist then i else u;
      if !visited[i] && dist[i] < minDist {
        minDist := dist[i];
        u := i;
      }
      i := i + 1;
    }
  }

  lemma AppendAssoc<T>(a: seq<T>, b: seq<T>, c: seq<T>)
    ensures (a + b) + c == a + (b + c)
  {
  }

  class Graph {
    var ports: seq<Port>
    var routes: seq<seq<Route>>

    /** Row i of `routes` holds the legs out of port i. */
    ghost predicate Valid()
      reads this
    {
      |routes| == |ports|
    }

    constructor ()
      ensures Valid() && ports == [] && routes == []
    {
      ports := [];
      routes := [];
    }

    method AddPort(name: string, cost: int)
      requires Valid()
      modifies this
      ensures Valid()
      ensures ports == old(ports) + [Port(name, cost, [])] && routes == old(routes) + [[]]
    {
      ports := ports + [Port(name, cost, [])];
      routes := routes + [[]];
    }

    /** The first-match scan over the port table. */
    method GetPortIndex(name: string) returns (idx: int)
      ensures idx == PortIndex(ports, name)
    {
      var i := 0;
      while i < |ports|
        invariant 0 <= i <= |ports|
        invariant forall j :: 0 <= j < i ==> ports[j].name != name
      {
        if ports[i].name == name {
          PortIndexFirst(ports, name);
          return i;
        }
        i := i + 1;
      }
      return -1;
    }

    method AddRoute(src: string, route: Route)
      requires Valid()
      modifies this
      ensures Valid()
      ensures (ports, routes) == WithRoute(old(ports), old(routes), src, route)
    {
      var srcIdx := GetPortIndex(src);
      if srcIdx == -1 {
        AddPort(src, 0);
        srcIdx := |ports| - 1;
        assert routes[srcIdx] + [route] == [route];
        assert routes[srcIdx := [route]] == old(routes) + [[route]];
      }
      routes := routes[srcIdx := routes[srcIdx] + [route]];
    }

    /** Some leg of port fromIdx's row resolves to port toIdx; false for an index out of range. */
    function HasDirectRoute(fromIdx: int, toIdx: int): (b: bool)
      reads this
      requires Valid()
      ensures b <==> (0 <= fromIdx < |ports| && 0 <= toIdx < |ports| &&
        exists j :: 0 <= j < |routes[fromIdx]| && PortIndex(ports, routes[fromIdx][j].destination) == toIdx)
    {
      if fromIdx < 0 || fromIdx >= |ports| || toIdx < 0 || toIdx >= |ports| then false
      else FirstLegTo(ports, routes[fromIdx], toIdx, 0) != -1
    }

    /** The row of a port; empty for an index out of range. */
    function GetRoutesFromPort(portIdx: int): (r: seq<Route>)
      reads this
      requires Valid()
      ensures 0 <= portIdx < |ports| ==> r == routes[portIdx]
      ensures !(0 <= portIdx < |ports|) ==> r == []
    {
      if portIdx < 0 || portIdx >= |ports| then [] else routes[portIdx]
    }

    /**
     * The first leg of port fromIdx's row that resolves to port toIdx; None stands for the
     * default-constructed leg returned when there is none.
     */
    function GetRouteBetween(fromIdx: int, toIdx: int): (r: Option<Route>)
      reads this
      requires Valid() && 0 <= fromIdx < |ports|
      ensures r.None? <==> forall j :: 0 <= j < |routes[fromIdx]| ==> PortIndex(ports, routes[fromIdx][j].destination) != toIdx
      ensures r.Some? ==> exists j :: (0 <= j < |routes[fromIdx]| && routes[fromIdx][j] == r.value &&
        PortIndex(ports, r.value.destination) == toIdx &&
        forall m :: 0 <= m < j ==> PortIndex(ports, routes[fromIdx][m].destination) != toIdx)
    {
      var j := FirstLegTo(ports, routes[fromIdx], toIdx, 0);
      if j == -1 then None else Some(routes[fromIdx][j])
    }

    /** The direct-route test and the leg lookup agree on every port in range. */
    lemma DirectRouteHasLeg(fromIdx: int, toIdx: int)
      requires Valid() && 0 <= fromIdx < |ports| && 0 <= toIdx < |ports|
      ensures HasDirectRoute(fromIdx, toIdx) <==> GetRouteBetween(fromIdx, toIdx).Some?
      ensures HasDirectRoute(fromIdx, toIdx) ==> GetRouteBetween(fromIdx, toIdx).value in GetRoutesFromPort(fromIdx)
    {
    }

    /**
     * The O(n^2) search from the port named `srcName`, weighing legs by duration or by price
     * plus the fee of the port entered, skipping avoided ports, legs that fail the company or
     * duration constraint, and legs that do not chain after the leg recorded into their origin.
     */
    method Dijkstra(srcName: string, findCheapest: bool, prefs: Option<UserPreferences>)
      returns (result: ShortestRouteResult, ghost via: seq<Route>, ghost rank: seq<int>)
      requires Valid()
      ensures |result.dist| == |ports| && |result.parent| == |ports|
      ensures result.found <==> SourceAccepted(ports, srcName, prefs)
      ensures result.found ==> (result.srcIdx == PortIndex(ports, srcName) &&
        result.dist[result.srcIdx] == 0 && result.parent[result.srcIdx] == -1)
      ensures !result.found ==> (result.srcIdx == -1 &&
        forall v :: 0 <= v < |ports| ==> result.dist[v] == INF && result.parent[v] == -1)
      ensures SearchOutcome(ports, routes, srcName, findCheapest, prefs, result, via, rank)
    {
      var n := |ports|;
      var dist := new int[n](_ => INF);
      var visited := new bool[n](_ => false);
      var parent := new int[n](_ => -1);
      var lastRoute := new Route[n](_ => NO_LEG);
      var srcIdx := GetPortIndex(srcName);
      if srcIdx == -1 {
        return ShortestRouteResult(dist[..], parent[..], -1, false), [], [];
      }
      if prefs.Some? && prefs.value.hasPortFilter && PortIsAvoid(ports[srcIdx].name, prefs.value) {
        return ShortestRouteResult(dist[..], parent[..], -1, false), [], [];
      }
      dist[srcIdx] := 0;
      via, rank := Search(srcIdx, findCheapest, prefs, dist, visited, parent, lastRoute);
      result := ShortestRouteResult(dist[..], parent[..], srcIdx, true);
    }

    /**
     * The rounds of the search from the accepted source srcIdx over fresh records with the source at 0: at most
     * |ports| - 1 times, settle the closest unvisited reached port and try its legs.
     */
    method Search(srcIdx: int, findCheapest: bool, prefs: Option<UserPreferences>,
                  dist: array<int>, visited: array<bool>, parent: array<int>, lastRoute: array<Route>)
      returns (ghost via: seq<Route>, ghost rank: seq<int>)
      requires Valid() && 0 <= srcIdx < |ports| && dist != parent
      requires dist.Length == visited.Length == parent.Length == lastRoute.Length == |ports|
      requires forall v :: 0 <= v < |ports| ==>
        dist[v] == (if v == srcIdx then 0 else INF) && !visited[v] && parent[v] == -1 && lastRoute[v] == NO_LEG
      modifies dist, visited, parent, lastRoute
      ensures via == lastRoute[..]
      ensures Records(dist[..], parent[..], lastRoute[..]) == Searched(ports, routes, prefs, findCheapest, srcIdx)
      ensures RelaxationTree(ports, routes, prefs, findCheapest, srcIdx, dist[..], parent[..], lastRoute[..], rank)
      ensures RelaxationComplete(ports, routes, prefs, findCheapest, srcIdx, dist[..], parent[..], lastRoute[..], rank)
    {
      var n := |ports|;
      ghost var order: seq<int> := seq(n, _ => n);
      ghost var final := Searched(ports, routes, prefs, findCheapest, srcIdx);
      RoundsBegin(ports, routes, prefs, findCheapest, srcIdx, dist[..], parent[..], lastRoute[..], visited[..], order);
      ghost var settled, count, last;
      order, settled, count, last := RunRounds(srcIdx, findCheapest, prefs, dist, visited, parent, lastRoute, order, final);
      RoundsEnd(ports, routes, prefs, findCheapest, srcIdx, dist[..], parent[..], lastRoute[..], visited[..],
                order, count, settled, final);
      via := lastRoute[..];
      rank := order;
    }

    /**
     * The main loop of the search: at most |ports| - 1 rounds, each settling the closest
     * unvisited reached port, stopping early when none is left. The invariant between rounds
     * holds at the end, and the loop stopped after |ports| - 1 rounds or with no reached port
     * unsettled.
     */
    method RunRounds(srcIdx: int, findCheapest: bool, prefs: Option<UserPreferences>,
                     dist: array<int>, visited: array<bool>, parent: array<int>, lastRoute: array<Route>,
                     ghost order: seq<int>, ghost final: Records)
      returns (ghost rank: seq<int>, ghost settled: seq<int>, ghost count: int, ghost last: int)
      requires dist != parent
      requires BetweenRounds(ports, routes, prefs, findCheapest, srcIdx, dist[..], parent[..], lastRoute[..],
                             visited[..], order, 0, [], final)
      modifies dist, visited, parent, lastRoute
      ensures BetweenRounds(ports, routes, prefs, findCheapest, srcIdx, dist[..], parent[..], lastRoute[..],
                            visited[..], rank, count, settled, final)
      ensures count == |ports| - 1 ||
        (last == ClosestAmong(dist[..], visited[..], dist.Length) && (last == -1 || dist[last] == INF))
    {
      var n := |ports|;
      rank, settled, last := order, [], -1;
      var step := 0;
      while step < n - 1
        invariant 0 <= step <= n - 1
        invariant BetweenRounds(ports, routes, prefs, findCheapest, srcIdx, dist[..], parent[..], lastRoute[..],
                                visited[..], rank, step, settled, final)
      {
        var u := ClosestUnvisited(dist, visited);
        if u == -1 || dist[u] == INF {
          last := u;
          break;
        }
        rank, settled := Round(srcIdx, findCheapest, prefs, u, dist, visited, parent, lastRoute,
                               rank, step, settled, final);
        step := step + 1;
      }
      count := step;
    }

    /**
     * One round: settles the closest reached port u in round `step` and tries its row. No
     * distance rises, every settled port, u included, still has all its legs relaxed, with
     * non-negative weights the ports are still settled closest first, and the rounds after
     * this one lead to the same final records.
     */
    method Round(srcIdx: int, findCheapest: bool, prefs: Option<UserPreferences>, u: int,
                 dist: array<int>, visited: array<bool>, parent: array<int>, lastRoute: array<Route>,
                 ghost order: seq<int>, ghost step: int, ghost settled: seq<int>, ghost final: Records)
      returns (ghost order': seq<int>, ghost settled': seq<int>)
      requires dist != parent
      requires BetweenRounds(ports, routes, prefs, findCheapest, srcIdx, dist[..], parent[..], lastRoute[..],
                             visited[..], order, step, settled, final)
      requires step < |ports| - 1 && u == ClosestAmong(dist[..], visited[..], |ports|) && u != -1
      modifies dist, visited, parent, lastRoute
      ensures order' == order[u := step] && settled' == settled + [u] && visited[..] == old(visited[..])[u := true]
      ensures Records(dist[..], parent[..], lastRoute[..]) ==
        TryLegs(ports, prefs, findCheapest, srcIdx, visited[..], u, routes[u],
                Records(old(dist[..]), old(parent[..]), old(lastRoute[..])))
      ensures Lowered(old(dist[..]), old(parent[..]), old(lastRoute[..]), dist[..], parent[..], lastRoute[..],
                      visited[..])
      ensures BetweenRounds(ports, routes, prefs, findCheapest, srcIdx, dist[..], parent[..], lastRoute[..],
                            visited[..], order', step + 1, settled', final)
    {
      ghost var d, p, w, vis, P, R := dist[..], parent[..], lastRoute[..], visited[..], ports, routes;
      SettleOrderStep(order, settled, u);
      settled' := settled + [u];
      order' := Settle(srcIdx, findCheapest, prefs, u, dist, visited, parent, lastRoute, order, step);
      assert ports == P && routes == R;
      ClosedStep(ports, routes, prefs, findCheapest, srcIdx, d, p, w, order,
                 dist[..], parent[..], lastRoute[..], visited[..], u, step);
      if NonNegativeWeights(ports, routes, findCheapest) {
        TryLegsAbove(ports, routes, prefs, findCheapest, srcIdx, visited[..], u, routes[u], Records(d, p, w));
        SettleInOrder(d, vis, order, step, u, dist[..]);
      }
      RoundsStep(ports, routes, prefs, findCheapest, srcIdx, Records(d, p, w), vis, step, u);
    }

    /** Marks the reached port u settled in round `step`, then relaxes the legs out of it. */
    method Settle(srcIdx: int, findCheapest: bool, prefs: Option<UserPreferences>, u: int,
                  dist: array<int>, visited: array<bool>, parent: array<int>, lastRoute: array<Route>,
                  ghost order: seq<int>, ghost step: int)
      returns (ghost order': seq<int>)
      requires dist != parent
      requires SearchState(ports, routes, prefs, findCheapest, srcIdx, dist[..], parent[..], lastRoute[..],
                           visited[..], order, step)
      requires 0 <= u < |ports| && !visited[u] && dist[u] < INF && step < |ports|
      modifies dist, visited, parent, lastRoute
      ensures order' == order[u := step] && visited[..] == old(visited[..])[u := true]
      ensures SearchState(ports, routes, prefs, findCheapest, srcIdx, dist[..], parent[..], lastRoute[..],
                          visited[..], order', step + 1)
      ensures Lowered(old(dist[..]), old(parent[..]), old(lastRoute[..]), dist[..], parent[..], lastRoute[..],
                      visited[..])
      ensures PortRelaxed(ports, routes, prefs, findCheapest, srcIdx, dist[..], parent[..], lastRoute[..], order', u)
      ensures Records(dist[..], parent[..], lastRoute[..]) ==
        TryLegs(ports, prefs, findCheapest, srcIdx, visited[..], u, routes[u],
                Records(old(dist[..]), old(parent[..]), old(lastRoute[..])))
    {
      ghost var d0, p0, w0, v0 := dist[..], parent[..], lastRoute[..], visited[..];
      visited[u] := true;
      order' := order[u := step];
      assert dist[..] == d0 && parent[..] == p0 && lastRoute[..] == w0 && visited[..] == v0[u := true];
      SettleKeeps(ports, routes, prefs, findCheapest, srcIdx, d0, p0, w0, v0, order, step, u, visited[..], order');
      RelaxOutLegs(srcIdx, findCheapest, prefs, u, dist, visited, parent, lastRoute, order', step + 1);
    }

    /** The legs out of the settled port u, each tried in row order. */
    method RelaxOutLegs(srcIdx: int, findCheapest: bool, prefs: Option<UserPreferences>, u: int,
                        dist: array<int>, visited: array<bool>, parent: array<int>, lastRoute: array<Route>,
                        ghost order: seq<int>, ghost step: int)
      requires dist != parent
      requires SearchState(ports, routes, prefs, findCheapest, srcIdx, dist[..], parent[..], lastRoute[..],
                           visited[..], order, step)
      requires 0 <= u < |ports| && visited[u]
      requires forall x :: 0 <= x < |ports| && visited[x] ==> order[x] <= order[u]
      modifies dist, parent, lastRoute
      ensures SearchState(ports, routes, prefs, findCheapest, srcIdx, dist[..], parent[..], lastRoute[..],
                          visited[..], order, step)
      ensures Lowered(old(dist[..]), old(parent[..]), old(lastRoute[..]), dist[..], parent[..], lastRoute[..],
                      visited[..])
      ensures PortRelaxed(ports, routes, prefs, findCheapest, srcIdx, dist[..], parent[..], lastRoute[..], order, u)
      ensures Records(dist[..], parent[..], lastRoute[..]) ==
        TryLegs(ports, prefs, findCheapest, srcIdx, visited[..], u, routes[u],
                Records(old(dist[..]), old(parent[..]), old(lastRoute[..])))
    {
      ghost var d0, p0, w0 := dist[..], parent[..], lastRoute[..];
      RowStart(ports, routes, prefs, findCheapest, srcIdx, d0, p0, w0, visited[..], order, step, u);
      var out := routes[u];
      var k := 0;
      while k < |out|
        invariant RowProgress(ports, routes, prefs, findCheapest, srcIdx, d0, p0, w0,
                              dist[..], parent[..], lastRoute[..], visited[..], order, step, u, k)
      {
        ghost var d, p, w := dist[..], parent[..], lastRoute[..];
        RelaxLeg(srcIdx, findCheapest, prefs, u, out[k], dist, visited, parent, lastRoute);
        RelaxNext(ports, routes, prefs, findCheapest, srcIdx, d0, p0, w0, d, p, w, visited[..], order, step, u, k,
                  dist[..], parent[..], lastRoute[..]);
        k := k + 1;
      }
      RowEnd(ports, routes, prefs, findCheapest, srcIdx, d0, p0, w0, dist[..], parent[..], lastRoute[..],
             visited[..], order, step, u);
    }

    /**
     * One leg out of the settled port u: it is skipped when its destination is unknown or
     * settled, when it enters an avoided port, fails the company or duration constraint, or
     * does not chain after the leg recorded into u; otherwise it lowers the distance of the
     * port it enters if that is shorter.
     */
    method RelaxLeg(srcIdx: int, findCheapest: bool, prefs: Option<UserPreferences>, u: int, route: Route,
                    dist: array<int>, visited: array<bool>, parent: array<int>, lastRoute: array<Route>)
      requires dist != parent
      requires dist.Length == visited.Length == parent.Length == lastRoute.Length == |ports| && 0 <= u < |ports|
      modifies dist, parent, lastRoute
      ensures LegTried(ports, prefs, findCheapest, srcIdx, old(dist[..]), old(parent[..]), old(lastRoute[..]),
                       visited[..], u, route, dist[..], parent[..], lastRoute[..])
    {
      var v := GetPortIndex(route.destination);
      ghost var d, p, w := dist[..], parent[..], lastRoute[..];
      if v == -1 || visited[v] {
        assert !LegUsable(ports, prefs, srcIdx, p, w, visited[..], u, route);
        return;
      }
      var allowed := PassesFilters(prefs, v, route);
      if !allowed {
        assert !LegUsable(ports, prefs, srcIdx, p, w, visited[..], u, route);
        return;
      }
      var validTiming := true;
      if u != srcIdx && parent[u] != -1 {
        validTiming := IsValidLegTransition(lastRoute[u], route);
      }
      if !validTiming {
        assert !LegUsable(ports, prefs, srcIdx, p, w, visited[..], u, route);
        return;
      }
      Improve(findCheapest, u, v, route, dist, parent, lastRoute);
    }

    /**
     * The preference checks on a leg into port v: it may not enter an avoided port, and with a
     * company or duration constraint the leg must meet it.
     */
    method PassesFilters(prefs: Option<UserPreferences>, v: int, route: Route) returns (allowed: bool)
      requires 0 <= v < |ports|
      ensures allowed <==> LegAllowed(ports, prefs, v, route)
    {
      allowed := true;
      if prefs.Some? {
        var p := prefs.value;
        if p.hasPortFilter && PortIsAvoid(ports[v].name, p) {
          allowed := false;
        } else if p.hasCompanyFilter && !RouteHasPreferredCompany(route, p) {
          allowed := false;
        } else if p.hasTimeFilter && route.travelTime > p.maxVoyageTime {
          allowed := false;
        }
      }
    }

    /** Record `route` as the way into port v when it lowers v's distance. */
    method Improve(findCheapest: bool, u: int, v: int, route: Route,
                   dist: array<int>, parent: array<int>, lastRoute: array<Route>)
      requires dist != parent
      requires dist.Length == parent.Length == lastRoute.Length == |ports| && 0 <= u < |ports| && 0 <= v < |ports|
      modifies dist, parent, lastRoute
      ensures Improved(findCheapest, ports, old(dist[..]), old(parent[..]), old(lastRoute[..]), u, v, route,
                       dist[..], parent[..], lastRoute[..])
    {
      var newDist := if findCheapest then dist[u] + route.cost + ports[v].cost else dist[u] + route.travelTime;
      if newDist < dist[v] {
        dist[v] := newDist;
        parent[v] := u;
        lastRoute[v] := route;
      }
    }

    /** The search weighing legs by duration. */
    method FindShortestRoute(srcName: string, prefs: Option<UserPreferences>)
      returns (result: ShortestRouteResult, ghost via: seq<Route>, ghost rank: seq<int>)
      requires Valid()
      ensures |result.dist| == |ports| && |result.parent| == |ports|
      ensures result.found <==> SourceAccepted(ports, srcName, prefs)
      ensures result.found ==> (result.srcIdx == PortIndex(ports, srcName) &&
        result.dist[result.srcIdx] == 0 && result.parent[result.srcIdx] == -1)
      ensures !result.found ==> (result.srcIdx == -1 &&
        forall v :: 0 <= v < |ports| ==> result.dist[v] == INF && result.parent[v] == -1)
      ensures SearchOutcome(ports, routes, srcName, false, prefs, result, via, rank)
    {
      result, via, rank := Dijkstra(srcName, false, prefs);
    }

    /** The search weighing legs by price plus the fee of the port entered. */
    method FindCheapestRoute(srcName: string, prefs: Option<UserPreferences>)
      returns (result: ShortestRouteResult, ghost via: seq<Route>, ghost rank: seq<int>)
      requires Valid()
      ensures |result.dist| == |ports| && |result.parent| == |ports|
      ensures result.found <==> SourceAccepted(ports, srcName, prefs)
      ensures result.found ==> (result.srcIdx == PortIndex(ports, srcName) &&
        result.dist[result.srcIdx] == 0 && result.parent[result.srcIdx] == -1)
      ensures !result.found ==> (result.srcIdx == -1 &&
        forall v :: 0 <= v < |ports| ==> result.dist[v] == INF && result.parent[v] == -1)
      ensures SearchOutcome(ports, routes, srcName, true, prefs, result, via, rank)
    {
      result, via, rank := Dijkstra(srcName, true, prefs);
    }

    /** The itinerary record of a found path: leg sums, then the fee of every port after the first. */
    method MakeItinerary(path: seq<int>, legs: seq<Route>) returns (cr: CompleteRoute)
      requires InRange(ports, path) && |path| >= 1
      ensures cr == MakeCompleteRoute(ports, path, legs)
    {
      var totalCost := 0;
      var totalTime := 0;
      var i := 0;
      while i < |legs|
        invariant 0 <= i <= |legs|
        invariant totalCost == LegCost(legs[..i]) && totalTime == LegTime(legs[..i])
      {
        assert legs[..i + 1][..i] == legs[..i];
        totalCost := totalCost + legs[i].cost;
        totalTime := totalTime + legs[i].travelTime;
        i := i + 1;
      }
      assert legs[..i] == legs;
      var j := 1;
      while j < |path|
        invariant 1 <= j <= |path|
        invariant InRange(ports, path[..j])
        invariant totalCost == LegCost(legs) + PortFees(ports, path[..j])
      {
        assert path[..j + 1][..j] == path[..j];
        totalCost := totalCost + ports[path[j]].cost;
        j := j + 1;
      }
      assert path[..j] == path;
      var layoverCount := if |path| >= 2 then |path| - 2 else 0;
      cr := CompleteRoute(path, legs, totalCost, totalTime, layoverCount);
    }

    /**
     * The backtracking search at port currentIdx with the prefix currentPath/currentLegs: its
     * itineraries are appended to `results` in the order the search finds them.
     */
    method DfsEnumerateRoutes(currentIdx: int, destIdx: int, currentPath: seq<int>, currentLegs: seq<Route>,
                              results: seq<CompleteRoute>, maxLegs: int) returns (found: seq<CompleteRoute>)
      requires Valid() && 0 <= currentIdx < |ports| && InRange(ports, currentPath) && 0 <= maxLegs
      ensures found == results + Dfs(ports, routes, currentIdx, destIdx, currentPath, currentLegs, maxLegs)
      decreases Measure(currentLegs, maxLegs), 2
    {
      if |currentLegs| > maxLegs {
        return results;
      }
      if currentIdx == destIdx && |currentLegs| > 0 {
        if !IsValidRoutePath(currentPath, currentLegs) {
          return results;
        }
        var cr := MakeItinerary(currentPath, currentLegs);
        return results + [cr];
      }
      if |currentLegs| == maxLegs {
        return results;
      }
      found := EnumerateRow(currentIdx, destIdx, currentPath, currentLegs, results, maxLegs);
    }

    /** The enumerator's loop over the legs out of the current port. */
    method EnumerateRow(currentIdx: int, destIdx: int, currentPath: seq<int>, currentLegs: seq<Route>,
                        results: seq<CompleteRoute>, maxLegs: int) returns (found: seq<CompleteRoute>)
      requires Valid() && 0 <= currentIdx < |ports| && InRange(ports, currentPath) && |currentLegs| < maxLegs
      ensures found == results + Branch(ports, routes, destIdx, currentPath, currentLegs, maxLegs, routes[currentIdx], 0)
      decreases Measure(currentLegs, maxLegs), 1
    {
      found := results;
      var out := routes[currentIdx];
      ghost var all := results + Branch(ports, routes, destIdx, currentPath, currentLegs, maxLegs, out, 0);
      var k := 0;
      while k < |out|
        invariant 0 <= k <= |out|
        invariant found + Branch(ports, routes, destIdx, currentPath, currentLegs, maxLegs, out, k) == all
      {
        ghost var before, pass := found, Followed(ports, routes, destIdx, currentPath, currentLegs, maxLegs, out[k]);
        ghost var rest := Branch(ports, routes, destIdx, currentPath, currentLegs, maxLegs, out, k + 1);
        BranchUnfold(ports, routes, destIdx, currentPath, currentLegs, maxLegs, out, k);
        found := FollowLeg(destIdx, currentPath, currentLegs, out[k], found, maxLegs);
        AppendAssoc(before, pass, rest);
        k := k + 1;
      }
    }

    /**
     * One pass of the enumerator's loop: follow `route` from the end of the prefix when its
     * destination is known, not yet on the path, and the leg chains after the last one.
     */
    method FollowLeg(destIdx: int, currentPath: seq<int>, currentLegs: seq<Route>, route: Route,
                     results: seq<CompleteRoute>, maxLegs: int) returns (found: seq<CompleteRoute>)
      requires Valid() && InRange(ports, currentPath) && |currentLegs| < maxLegs
      ensures found == results + Followed(ports, routes, destIdx, currentPath, currentLegs, maxLegs, route)
      decreases Measure(currentLegs, maxLegs), 0
    {
      var nextIdx := GetPortIndex(route.destination);
      if nextIdx == -1 || nextIdx in currentPath {
        return results;
      }
      var validTiming := true;
      if |currentLegs| > 0 {
        validTiming := IsValidLegTransition(currentLegs[|currentLegs| - 1], route);
      }
      if !validTiming {
        return results;
      }
      found := DfsEnumerateRoutes(nextIdx, destIdx, currentPath + [nextIdx], currentLegs + [route], results, maxLegs);
    }

    /**
     * All itineraries from originIdx to destIdx with at most MAX_LAYOVERS + 1 legs, in the order
     * the search finds them; none for an index out of range (EnumerationSound,
     * EnumerationComplete and NoRouteToItself say which they are).
     */
    method FindAllPossibleRoutes(originIdx: int, destIdx: int) returns (allRoutes: seq<CompleteRoute>)
      requires Valid()
      ensures allRoutes == AllRoutes(ports, routes, originIdx, destIdx)
    {
      if originIdx < 0 || originIdx >= |ports| || destIdx < 0 || destIdx >= |ports| {
        return [];
      }
      allRoutes := DfsEnumerateRoutes(originIdx, destIdx, [originIdx], [], [], MAX_LAYOVERS + 1);
    }

    /**
     * The first itinerary of the enumeration that no other beats on (cost, then time); false,
     * with cheapestOut left as it was, when there is none.
     */
    method FindCheapestEnumeratedRoute(originIdx: int, destIdx: int, cheapestIn: CompleteRoute)
      returns (ok: bool, cheapestOut: CompleteRoute)
      requires Valid()
      ensures ok <==> AllRoutes(ports, routes, originIdx, destIdx) != []
      ensures !ok ==> cheapestOut == cheapestIn
      ensures ok ==> cheapestOut in AllRoutes(ports, routes, originIdx, destIdx)
      ensures ok ==> forall r :: r in AllRoutes(ports, routes, originIdx, destIdx) ==> !Cheaper(r, cheapestOut)
      ensures ok ==> exists i :: (0 <= i < |AllRoutes(ports, routes, originIdx, destIdx)| &&
        AllRoutes(ports, routes, originIdx, destIdx)[i] == cheapestOut &&
        forall m :: 0 <= m < i ==> Cheaper(cheapestOut, AllRoutes(ports, routes, originIdx, destIdx)[m]))
    {
      var allRoutes := FindAllPossibleRoutes(originIdx, destIdx);
      if |allRoutes| == 0 {
        return false, cheapestIn;
      }
      var best := 0;
      var i := 1;
      while i < |allRoutes|
        invariant 1 <= i <= |allRoutes| && 0 <= best < i
        invariant forall m :: 0 <= m < i ==> !Cheaper(allRoutes[m], allRoutes[best])
        invariant forall m :: 0 <= m < best ==> Cheaper(allRoutes[best], allRoutes[m])
      {
        if Cheaper(allRoutes[i], allRoutes[best]) {
          forall m | 0 <= m < i ensures Cheaper(allRoutes[i], allRoutes[m]) {
            CheaperOrder(allRoutes[m], allRoutes[best], allRoutes[i]);
          }
          best := i;
        }
        CheaperOrder(allRoutes[best], allRoutes[best], allRoutes[best]);
        i := i + 1;
      }
      return true, allRoutes[best];
    }

    /** The legs of the adjacency row of port `name` that survive the preference filter, in row order. */
    method FilterRow(name: string, prefs: UserPreferences, row: seq<Route>) returns (kept: seq<Route>)
      ensures kept == KeptLegs(name, prefs, row)
    {
      kept := [];
      var j := 0;
      while j < |row|
        invariant 0 <= j <= |row|
        invariant kept == KeptLegs(name, prefs, row[..j])
      {
        var route := row[j];
        if !PortIsAvoid(name, prefs) && !PortIsAvoid(route.destination, prefs) &&
           RouteMatchesPreferences(route, prefs) {
          kept := kept + [route];
        }
        assert row[..j + 1][..j] == row[..j];
        j := j + 1;
      }
      assert row[..j] == row;
    }

    /** The preference filter: the allowed ports, and per port the legs that survive. */
    method ApplyFilters(prefs: UserPreferences) returns (result: FilteredGraphData)
      requires Valid()
      ensures result.allowedPorts == AllowedPortsUpTo(ports, prefs, |ports|)
      ensures |result.filteredRoutes| == |ports|
      ensures forall i :: 0 <= i < |ports| ==> result.filteredRoutes[i] == KeptLegs(ports[i].name, prefs, routes[i])
    {
      var allowedPorts: seq<int> := [];
      var filteredRoutes: seq<seq<Route>> := seq(|ports|, _ => []);
      var i := 0;
      while i < |ports|
        invariant 0 <= i <= |ports|
        invariant allowedPorts == AllowedPortsUpTo(ports, prefs, i)
      {
        if !PortIsAvoid(ports[i].name, prefs) {
          allowedPorts := allowedPorts + [i];
        }
        i := i + 1;
      }
      i := 0;
      while i < |routes|
        invariant 0 <= i <= |routes|
        invariant |filteredRoutes| == |ports|
        invariant forall m :: 0 <= m < i ==> filteredRoutes[m] == KeptLegs(ports[m].name, prefs, routes[m])
      {
        var kept := FilterRow(ports[i].name, prefs, routes[i]);
        filteredRoutes := filteredRoutes[i := kept];
        i := i + 1;
      }
      result := FilteredGraphData(allowedPorts, filteredRoutes);
    }
  }
}
