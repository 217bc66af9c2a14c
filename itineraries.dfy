/**
 * The bounded itinerary enumerator as a specification: `Dfs` and `Branch` follow the
 * backtracking search leg by leg, in the order the search visits the adjacency rows, and the
 * lemmas say which itineraries it yields: exactly the simple, temporally chained walks from
 * the origin to the destination with at most MAX_LAYOVERS + 1 legs, each with exact totals.
 */
module Itineraries {
  import opened Schedule
  import opened Ports

  const MAX_LAYOVERS: nat := 3

  /** Sum of the leg costs, accumulated from the first leg on. */
  function LegCost(legs: seq<Route>): int {
    if legs == [] then 0 else LegCost(legs[..|legs| - 1]) + legs[|legs| - 1].cost
  }

  /** Sum of the legs' travel times. */
  function LegTime(legs: seq<Route>): int {
    if legs == [] then 0 else LegTime(legs[..|legs| - 1]) + legs[|legs| - 1].travelTime
  }

  ghost predicate InRange(ports: seq<Port>, path: seq<int>) {
    forall i :: 0 <= i < |path| ==> 0 <= path[i] < |ports|
  }

  /** Sum of the arrival fees of every port after the first one on the path. */
  function PortFees(ports: seq<Port>, path: seq<int>): int
    requires InRange(ports, path)
  {
    if |path| <= 1 then 0 else PortFees(ports, path[..|path| - 1]) + ports[path[|path| - 1]].cost
  }

  function Layovers(path: seq<int>): int {
    if |path| >= 2 then |path| - 2 else 0
  }

  /** The itinerary record of a found path, with its totals. */
  function MakeCompleteRoute(ports: seq<Port>, path: seq<int>, legs: seq<Route>): CompleteRoute
    requires InRange(ports, path)
  {
    CompleteRoute(path, legs, LegCost(legs) + PortFees(ports, path), LegTime(legs), Layovers(path))
  }

  ghost predicate Distinct(path: seq<int>) {
    forall i, j :: 0 <= i < j < |path| ==> path[i] != path[j]
  }

  /**
   * `path` visits ports joined by `legs`: leg i belongs to the row of path[i], its destination
   * name resolves to path[i+1]; no port repeats and the legs chain in time.
   */
  ghost predicate Walk(ports: seq<Port>, routes: seq<seq<Route>>, path: seq<int>, legs: seq<Route>) {
    |routes| == |ports| && |path| == |legs| + 1 && InRange(ports, path) && Distinct(path) &&
    (forall i {:trigger legs[i]} :: 0 <= i < |legs| ==>
      legs[i] in routes[path[i]] && PortIndex(ports, legs[i].destination) == path[i + 1]) &&
    Chained(legs)
  }

  /** A walk the enumerator is meant to return for the query (origin, dest). */
  ghost predicate IsItinerary(ports: seq<Port>, routes: seq<seq<Route>>, origin: int, dest: int,
                              path: seq<int>, legs: seq<Route>) {
    Walk(ports, routes, path, legs) && path[0] == origin && path[|path| - 1] == dest &&
    1 <= |legs| <= MAX_LAYOVERS + 1
  }

  function Measure(legs: seq<Route>, maxLegs: int): nat {
    if |legs| <= maxLegs then maxLegs - |legs| else 0
  }

  /** The results of one call of the search at port `cur` with the given prefix. */
  function Dfs(ports: seq<Port>, routes: seq<seq<Route>>, cur: int, dest: int,
               path: seq<int>, legs: seq<Route>, maxLegs: int): seq<CompleteRoute>
    requires |routes| == |ports| && 0 <= cur < |ports| && InRange(ports, path)
    decreases Measure(legs, maxLegs), 1, 0
  {
    if |legs| > maxLegs then []
    else if cur == dest && |legs| > 0 then
      if IsValidRoutePath(path, legs) then [MakeCompleteRoute(ports, path, legs)] else []
    else if |legs| == maxLegs then []
    else Branch(ports, routes, dest, path, legs, maxLegs, routes[cur], 0)
  }

  /** The results of the loop over the legs out[k..] of the current port. */
  function Branch(ports: seq<Port>, routes: seq<seq<Route>>, dest: int, path: seq<int>,
                  legs: seq<Route>, maxLegs: int, out: seq<Route>, k: nat): seq<CompleteRoute>
    requires |routes| == |ports| && InRange(ports, path) && |legs| < maxLegs && k <= |out|
    decreases Measure(legs, maxLegs), 0, |out| - k
  {
    if k == |out| then []
    else
      var route := out[k];
      var next := PortIndex(ports, route.destination);
      var rest := Branch(ports, routes, dest, path, legs, maxLegs, out, k + 1);
      if Extends(ports, path, legs, route) then
        Dfs(ports, routes, next, dest, path + [next], legs + [route], maxLegs) + rest
      else rest
  }

  /** The search follows `route` from the end of the prefix: known destination, not yet on the path, chains in time. */
  predicate Extends(ports: seq<Port>, path: seq<int>, legs: seq<Route>, route: Route) {
    var next := PortIndex(ports, route.destination);
    next != -1 && next !in path && (|legs| > 0 ==> IsValidLegTransition(legs[|legs| - 1], route))
  }

  /** The enumeration for (origin, dest): empty for an index out of range. */
  function AllRoutes(ports: seq<Port>, routes: seq<seq<Route>>, origin: int, dest: int): seq<CompleteRoute>
    requires |routes| == |ports|
  {
    if origin < 0 || origin >= |ports| || dest < 0 || dest >= |ports| then []
    else Dfs(ports, routes, origin, dest, [origin], [], MAX_LAYOVERS + 1)
  }

  lemma WalkExtend(ports: seq<Port>, routes: seq<seq<Route>>, path: seq<int>, legs: seq<Route>, route: Route)
    requires Walk(ports, routes, path, legs)
    requires route in routes[path[|path| - 1]] && Extends(ports, path, legs, route)
    ensures Walk(ports, routes, path + [PortIndex(ports, route.destination)], legs + [route])
  {
    var next := PortIndex(ports, route.destination);
    var p, l := path + [next], legs + [route];
    forall i, j | 0 <= i < j < |p| ensures p[i] != p[j] {
      if j == |path| { assert p[i] == path[i]; }
    }
    forall i | 0 <= i < |l| ensures l[i] in routes[p[i]] && PortIndex(ports, l[i].destination) == p[i + 1] {
      if i < |legs| { assert l[i] == legs[i] && p[i] == path[i] && p[i + 1] == path[i + 1]; }
    }
    ChainedAppend(legs, route);
  }

  /** Every result of a search call extends its prefix to a walk that ends at `dest`. */
  lemma {:induction false} DfsSound(ports: seq<Port>, routes: seq<seq<Route>>, cur: int, dest: int,
                                    path: seq<int>, legs: seq<Route>, maxLegs: int, r: CompleteRoute)
    requires |routes| == |ports| && 0 <= cur < |ports|
    requires Walk(ports, routes, path, legs) && path[|path| - 1] == cur
    requires r in Dfs(ports, routes, cur, dest, path, legs, maxLegs)
    ensures Walk(ports, routes, r.portPath, r.routeLegs) && r == MakeCompleteRoute(ports, r.portPath, r.routeLegs)
    ensures r.portPath[0] == path[0] && r.portPath[|r.portPath| - 1] == dest
    ensures |legs| <= |r.routeLegs| && 1 <= |r.routeLegs| <= maxLegs
    decreases Measure(legs, maxLegs), 1, 0
  {
    if |legs| > maxLegs {
    } else if cur == dest && |legs| > 0 {
    } else if |legs| == maxLegs {
    } else {
      BranchSound(ports, routes, dest, path, legs, maxLegs, 0, r);
    }
  }

  lemma {:induction false} BranchSound(ports: seq<Port>, routes: seq<seq<Route>>, dest: int,
                                       path: seq<int>, legs: seq<Route>, maxLegs: int, k: nat, r: CompleteRoute)
    requires Walk(ports, routes, path, legs) && |legs| < maxLegs
    requires k <= |routes[path[|path| - 1]]|
    requires r in Branch(ports, routes, dest, path, legs, maxLegs, routes[path[|path| - 1]], k)
    ensures Walk(ports, routes, r.portPath, r.routeLegs) && r == MakeCompleteRoute(ports, r.portPath, r.routeLegs)
    ensures r.portPath[0] == path[0] && r.portPath[|r.portPath| - 1] == dest
    ensures |legs| <= |r.routeLegs| && 1 <= |r.routeLegs| <= maxLegs
    decreases Measure(legs, maxLegs), 0, |routes[path[|path| - 1]]| - k
  {
    var out := routes[path[|path| - 1]];
    if k < |out| {
      var route := out[k];
      var next := PortIndex(ports, route.destination);
      var rest := Branch(ports, routes, dest, path, legs, maxLegs, out, k + 1);
      if Extends(ports, path, legs, route) && r in Dfs(ports, routes, next, dest, path + [next], legs + [route], maxLegs) {
        WalkExtend(ports, routes, path, legs, route);
        DfsSound(ports, routes, next, dest, path + [next], legs + [route], maxLegs, r);
      } else {
        assert r in rest;
        BranchSound(ports, routes, dest, path, legs, maxLegs, k + 1, r);
      }
    }
  }

  /** A result of the child search for out[j] is also a result of the loop from any k <= j. */
  lemma {:induction false} BranchKeeps(ports: seq<Port>, routes: seq<seq<Route>>, dest: int,
                                       path: seq<int>, legs: seq<Route>, maxLegs: int, out: seq<Route>,
                                       k: nat, j: nat, r: CompleteRoute)
    requires |routes| == |ports| && InRange(ports, path) && |legs| < maxLegs && k <= j < |out|
    requires Extends(ports, path, legs, out[j])
    requires r in Dfs(ports, routes, PortIndex(ports, out[j].destination), dest,
                      path + [PortIndex(ports, out[j].destination)], legs + [out[j]], maxLegs)
    ensures r in Branch(ports, routes, dest, path, legs, maxLegs, out, k)
    decreases j - k
  {
    BranchUnfold(ports, routes, dest, path, legs, maxLegs, out, k);
    if k < j {
      BranchKeeps(ports, routes, dest, path, legs, maxLegs, out, k + 1, j, r);
    } else {
      assert r in Followed(ports, routes, dest, path, legs, maxLegs, out[k]);
    }
  }

  /** The k-th leg of a walk extends the walk's prefix of k legs, and leads to the next port. */
  lemma WalkPrefixExtends(ports: seq<Port>, routes: seq<seq<Route>>, path: seq<int>, legs: seq<Route>, k: nat)
    requires Walk(ports, routes, path, legs) && k < |legs|
    ensures legs[k] in routes[path[k]] && PortIndex(ports, legs[k].destination) == path[k + 1]
    ensures Extends(ports, path[..k + 1], legs[..k], legs[k])
    ensures path[..k + 1] + [path[k + 1]] == path[..k + 2] && legs[..k] + [legs[k]] == legs[..k + 1]
  {
    var prefix, done := path[..k + 1], legs[..k];
    var next := path[k + 1];
    assert next !in prefix by {
      forall i | 0 <= i < |prefix| ensures prefix[i] != next { assert prefix[i] == path[i]; }
    }
    assert k > 0 ==> done[k - 1] == legs[k - 1];
  }

  /** The search started on a prefix of a walk to `dest` finds that walk. */
  lemma {:induction false} DfsComplete(ports: seq<Port>, routes: seq<seq<Route>>, dest: int,
                                       path: seq<int>, legs: seq<Route>, maxLegs: int, k: nat)
    requires Walk(ports, routes, path, legs) && path[|path| - 1] == dest
    requires 1 <= |legs| <= maxLegs && k <= |legs|
    ensures MakeCompleteRoute(ports, path, legs) in Dfs(ports, routes, path[k], dest, path[..k + 1], legs[..k], maxLegs)
    decreases |legs| - k
  {
    if k == |legs| {
      assert path[..k + 1] == path && legs[..k] == legs;
    } else {
      var prefix, done := path[..k + 1], legs[..k];
      assert path[k] != dest by { assert path[k] != path[|legs|]; }
      var out := routes[path[k]];
      WalkPrefixExtends(ports, routes, path, legs, k);
      var j :| 0 <= j < |out| && out[j] == legs[k];
      DfsComplete(ports, routes, dest, path, legs, maxLegs, k + 1);
      BranchKeeps(ports, routes, dest, prefix, done, maxLegs, out, 0, j, MakeCompleteRoute(ports, path, legs));
    }
  }

  /**
   * Every enumerated itinerary is a simple, temporally chained walk from `origin` to `dest`
   * with 1 to MAX_LAYOVERS + 1 legs, and its totals are exact.
   */
  lemma EnumerationSound(ports: seq<Port>, routes: seq<seq<Route>>, origin: int, dest: int, r: CompleteRoute)
    requires |routes| == |ports| && r in AllRoutes(ports, routes, origin, dest)
    ensures IsItinerary(ports, routes, origin, dest, r.portPath, r.routeLegs)
    ensures IsValidRoutePath(r.portPath, r.routeLegs)
    ensures r == MakeCompleteRoute(ports, r.portPath, r.routeLegs)
  {
    DfsSound(ports, routes, origin, dest, [origin], [], MAX_LAYOVERS + 1, r);
  }

  /** Every such walk is enumerated. */
  lemma EnumerationComplete(ports: seq<Port>, routes: seq<seq<Route>>, origin: int, dest: int,
                            path: seq<int>, legs: seq<Route>)
    requires IsItinerary(ports, routes, origin, dest, path, legs)
    ensures MakeCompleteRoute(ports, path, legs) in AllRoutes(ports, routes, origin, dest)
  {
    DfsComplete(ports, routes, dest, path, legs, MAX_LAYOVERS + 1, 0);
    assert path[..1] == [origin] && legs[..0] == [];
  }

  /** A port is never routed to itself: the enumeration from a port to itself is empty. */
  lemma NoRouteToItself(ports: seq<Port>, routes: seq<seq<Route>>, origin: int)
    requires |routes| == |ports|
    ensures AllRoutes(ports, routes, origin, origin) == []
  {
    var all := AllRoutes(ports, routes, origin, origin);
    if all != [] {
      EnumerationSound(ports, routes, origin, origin, all[0]);
      assert false;
    }
  }

  /** The order the cheapest-route selection uses: lower cost, then lower time. */
  predicate Cheaper(a: CompleteRoute, b: CompleteRoute) {
    if a.totalCost == b.totalCost then a.totalTime < b.totalTime else a.totalCost < b.totalCost
  }

  /** Cheaper is a strict weak order: beating something no cheaper than a third beats the third. */
  lemma CheaperOrder(a: CompleteRoute, b: CompleteRoute, c: CompleteRoute)
    ensures !Cheaper(a, a)
    ensures Cheaper(c, b) && !Cheaper(a, b) ==> Cheaper(c, a)
    ensures Cheaper(a, b) ==> !Cheaper(b, a)
  {
  }

  /** What one pass of the search's loop adds for `route`: the results below it, or nothing when it is skipped. */
  function Followed(ports: seq<Port>, routes: seq<seq<Route>>, dest: int, path: seq<int>,
                    legs: seq<Route>, maxLegs: int, route: Route): seq<CompleteRoute>
    requires |routes| == |ports| && InRange(ports, path) && |legs| < maxLegs
  {
    var next := PortIndex(ports, route.destination);
    if Extends(ports, path, legs, route)
    then Dfs(ports, routes, next, dest, path + [next], legs + [route], maxLegs)
    else []
  }

  /** The loop over a row is one pass for its first leg followed by the loop over the rest. */
  lemma BranchUnfold(ports: seq<Port>, routes: seq<seq<Route>>, dest: int, path: seq<int>,
                     legs: seq<Route>, maxLegs: int, out: seq<Route>, k: nat)
    requires |routes| == |ports| && InRange(ports, path) && |legs| < maxLegs && k < |out|
    ensures Branch(ports, routes, dest, path, legs, maxLegs, out, k) ==
      Followed(ports, routes, dest, path, legs, maxLegs, out[k]) +
      Branch(ports, routes, dest, path, legs, maxLegs, out, k + 1)
  {
    var rest := Branch(ports, routes, dest, path, legs, maxLegs, out, k + 1);
    assert [] + rest == rest;
  }
}
