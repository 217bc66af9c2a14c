/**
 * What the preference-aware Dijkstra search leaves behind. The search records, per port, the
 * tentative distance, the parent port and the leg used to reach it; the predicates below say
 * that these records form a tree rooted at the source whose every edge is a real, allowed leg
 * that chains in time with the leg into its parent, and the lemmas turn that into a walk from
 * the source whose weight is the reported distance.
 */
module ShortestPaths {
  import opened Wrappers
  import opened Schedule
  import opened Preferences
  import opened Ports
  import opened Itineraries

  /** The "unreached" distance. */
  const INF: int := 1000000000

  datatype ShortestRouteResult = ShortestRouteResult(dist: seq<int>, parent: seq<int>, srcIdx: int, found: bool)

  /** The source name resolves, and no active avoid-list names it. */
  predicate SourceAccepted(ports: seq<Port>, srcName: string, prefs: Option<UserPreferences>) {
    var s := PortIndex(ports, srcName);
    s != -1 && !(prefs.Some? && prefs.value.hasPortFilter && PortIsAvoid(ports[s].name, prefs.value))
  }

  /** Entering port v by `route` respects the preferences (no preferences: everything is allowed). */
  predicate LegAllowed(ports: seq<Port>, prefs: Option<UserPreferences>, v: int, route: Route)
    requires 0 <= v < |ports|
  {
    prefs.None? || (!PortIsAvoid(ports[v].name, prefs.value) && RouteMatchesPreferences(route, prefs.value))
  }

  /** Time mode: the leg's duration. Cost mode: the leg's price plus the fee of the port it enters. */
  function EdgeWeight(findCheapest: bool, ports: seq<Port>, v: int, route: Route): int
    requires 0 <= v < |ports|
  {
    if findCheapest then route.cost + ports[v].cost else route.travelTime
  }

  /**
   * The record of port v points to its parent u by a leg of u's row that resolves to v, is
   * allowed, adds its weight to u's distance, chains after the leg into u unless u is the
   * source.
   */
  ghost predicate TreeEdge(ports: seq<Port>, routes: seq<seq<Route>>, prefs: Option<UserPreferences>,
                           findCheapest: bool, src: int, dist: seq<int>, parent: seq<int>,
                           via: seq<Route>, v: int)
    requires |routes| == |ports| == |dist| == |parent| == |via| && 0 <= v < |ports|
  {
    var u := parent[v];
    0 <= u < |ports| && u != v &&
    via[v] in routes[u] && PortIndex(ports, via[v].destination) == v &&
    LegAllowed(ports, prefs, v, via[v]) &&
    dist[v] == dist[u] + EdgeWeight(findCheapest, ports, v, via[v]) &&
    (u != src ==> parent[u] != -1 && IsValidLegTransition(via[u], via[v]))
  }

  /** The final records of a search from `src`. */
  ghost predicate RelaxationTree(ports: seq<Port>, routes: seq<seq<Route>>, prefs: Option<UserPreferences>,
                                 findCheapest: bool, src: int, dist: seq<int>, parent: seq<int>,
                                 via: seq<Route>, rank: seq<int>)
  {
    |routes| == |ports| == |dist| == |parent| == |via| == |rank| && 0 <= src < |ports| &&
    dist[src] == 0 && parent[src] == -1 &&
    (forall v :: 0 <= v < |ports| ==> 0 <= rank[v] && dist[v] <= INF) &&
    (forall v {:trigger parent[v]} :: 0 <= v < |ports| ==> (dist[v] < INF <==> v == src || parent[v] != -1)) &&
    (forall v {:trigger parent[v]} :: 0 <= v < |ports| && parent[v] != -1 ==>
      0 <= parent[v] < |ports| && rank[parent[v]] < rank[v]) &&
    (forall v {:trigger TreeEdge(ports, routes, prefs, findCheapest, src, dist, parent, via, v)} ::
      0 <= v < |ports| && parent[v] != -1 ==>
      TreeEdge(ports, routes, prefs, findCheapest, src, dist, parent, via, v))
  }

  /**
   * The leg r out of port u passes every test of the relaxation: its destination resolves to
   * an unsettled port, the preferences allow entering it, and it chains after the leg
   * recorded into u (when u is not the source and has one).
   */
  predicate LegUsable(ports: seq<Port>, prefs: Option<UserPreferences>, src: int,
                            parent: seq<int>, via: seq<Route>, visited: seq<bool>, u: int, r: Route)
    requires |parent| == |via| == |visited| == |ports| && 0 <= u < |ports|
  {
    var v := PortIndex(ports, r.destination);
    v != -1 && !visited[v] && LegAllowed(ports, prefs, v, r) &&
    (u != src && parent[u] != -1 ==> IsValidLegTransition(via[u], r))
  }

  /** The three records the search keeps per port: distance, parent port and the leg into it. */
  datatype Records = Records(dist: seq<int>, parent: seq<int>, via: seq<Route>)

  /** The records have one entry per port. */
  predicate Sized(s: Records, n: int) {
    |s.dist| == n && |s.parent| == n && |s.via| == n
  }

  /**
   * The records after offering port v the way through the leg r out of u: when u's distance
   * plus the leg's weight is below v's distance, v gets that distance, parent u and leg r
   * together; otherwise nothing changes.
   */
  function Offered(findCheapest: bool, ports: seq<Port>, s: Records, u: int, v: int, r: Route): (s': Records)
    requires Sized(s, |ports|) && 0 <= u < |ports| && 0 <= v < |ports|
    ensures Sized(s', |ports|)
  {
    var nd := s.dist[u] + EdgeWeight(findCheapest, ports, v, r);
    if nd < s.dist[v] then Records(s.dist[v := nd], s.parent[v := u], s.via[v := r]) else s
  }

  /** dist', parent', via' are the records after offering port v the way through r out of u. */
  ghost predicate Improved(findCheapest: bool, ports: seq<Port>, dist: seq<int>, parent: seq<int>, via: seq<Route>,
                           u: int, v: int, r: Route, dist': seq<int>, parent': seq<int>, via': seq<Route>)
    requires |dist| == |parent| == |via| == |ports| && 0 <= u < |ports| && 0 <= v < |ports|
  {
    Records(dist', parent', via') == Offered(findCheapest, ports, Records(dist, parent, via), u, v, r)
  }

  /**
   * The records after trying the leg r out of u: a usable leg is offered to the port it
   * enters; any other leg changes nothing.
   */
  function TryLeg(ports: seq<Port>, prefs: Option<UserPreferences>, findCheapest: bool, src: int,
                  visited: seq<bool>, u: int, r: Route, s: Records): (s': Records)
    requires Sized(s, |ports|) && |visited| == |ports| && 0 <= u < |ports|
    ensures Sized(s', |ports|)
  {
    if LegUsable(ports, prefs, src, s.parent, s.via, visited, u, r)
    then Offered(findCheapest, ports, s, u, PortIndex(ports, r.destination), r)
    else s
  }

  /** dist', parent', via' are the records after trying the leg r out of u. */
  ghost predicate LegTried(ports: seq<Port>, prefs: Option<UserPreferences>, findCheapest: bool, src: int,
                           dist: seq<int>, parent: seq<int>, via: seq<Route>, visited: seq<bool>, u: int, r: Route,
                           dist': seq<int>, parent': seq<int>, via': seq<Route>)
    requires |dist| == |parent| == |via| == |visited| == |ports| && 0 <= u < |ports|
  {
    Records(dist', parent', via') == TryLeg(ports, prefs, findCheapest, src, visited, u, r, Records(dist, parent, via))
  }

  /** The records after trying the legs `legs` out of u in order, as the loop over u's row does. */
  function TryLegs(ports: seq<Port>, prefs: Option<UserPreferences>, findCheapest: bool, src: int,
                   visited: seq<bool>, u: int, legs: seq<Route>, s: Records): (s': Records)
    requires Sized(s, |ports|) && |visited| == |ports| && 0 <= u < |ports|
    ensures Sized(s', |ports|)
    decreases |legs|
  {
    if legs == [] then s
    else TryLegs(ports, prefs, findCheapest, src, visited, u, legs[1..],
                 TryLeg(ports, prefs, findCheapest, src, visited, u, legs[0], s))
  }

  /** Trying legs[k] is the first step of trying legs[k..]. */
  lemma TryLegsStep(ports: seq<Port>, prefs: Option<UserPreferences>, findCheapest: bool, src: int,
                    visited: seq<bool>, u: int, legs: seq<Route>, k: int, s: Records, s': Records)
    requires Sized(s, |ports|) && |visited| == |ports| && 0 <= u < |ports| && 0 <= k < |legs|
    requires s' == TryLeg(ports, prefs, findCheapest, src, visited, u, legs[k], s)
    ensures TryLegs(ports, prefs, findCheapest, src, visited, u, legs[k + 1..], s') ==
            TryLegs(ports, prefs, findCheapest, src, visited, u, legs[k..], s)
  {
    assert legs[k..][0] == legs[k] && legs[k..][1..] == legs[k + 1..];
  }

  /**
   * The port the search settles next, looking at the first k ports: the first unvisited port
   * of least distance below INF, or -1 when there is none.
   */
  function ClosestAmong(dist: seq<int>, visited: seq<bool>, k: nat): (u: int)
    requires k <= |dist| == |visited|
    ensures u == -1 <==> forall i :: 0 <= i < k ==> visited[i] || dist[i] >= INF
    ensures u != -1 ==> (0 <= u < k && !visited[u] && dist[u] < INF &&
      (forall i :: 0 <= i < k && !visited[i] ==> dist[u] <= dist[i]) &&
      (forall i :: 0 <= i < u && !visited[i] ==> dist[u] < dist[i]))
  {
    if k == 0 then -1
    else
      var u := ClosestAmong(dist, visited, k - 1);
      if !visited[k - 1] && dist[k - 1] < (if u == -1 then INF else dist[u]) then k - 1 else u
  }

  /**
   * The records after the rounds `count` .. |ports| - 2 of the search: each round settles the
   * closest reached unvisited port and tries its row; the rounds stop early when none is left.
   */
  function Rounds(ports: seq<Port>, routes: seq<seq<Route>>, prefs: Option<UserPreferences>, findCheapest: bool,
                  src: int, s: Records, visited: seq<bool>, count: int): (s': Records)
    requires |routes| == |ports| && Sized(s, |ports|) && |visited| == |ports|
    ensures Sized(s', |ports|)
    decreases |ports| - count
  {
    if count >= |ports| - 1 then s
    else
      var u := ClosestAmong(s.dist, visited, |ports|);
      if u == -1 || s.dist[u] == INF then s
      else Rounds(ports, routes, prefs, findCheapest, src,
                  TryLegs(ports, prefs, findCheapest, src, visited[u := true], u, routes[u], s),
                  visited[u := true], count + 1)
  }

  /** The value of a leg record that no search has written yet. */
  const NO_LEG: Route := Route("", "01-01-2024", "00:00", "00:00", 0, "", 0)

  /** The records a search from `src` leaves: all rounds from the initial records. */
  function Searched(ports: seq<Port>, routes: seq<seq<Route>>, prefs: Option<UserPreferences>, findCheapest: bool,
                    src: int): (s: Records)
    requires |routes| == |ports| && 0 <= src < |ports|
    ensures Sized(s, |ports|)
  {
    var n := |ports|;
    Rounds(ports, routes, prefs, findCheapest, src,
           Records(seq(n, _ => INF)[src := 0], seq(n, _ => -1), seq(n, _ => NO_LEG)), seq(n, _ => false), 0)
  }

  /**
   * The leg r out of the settled port u has been relaxed: when it resolves to a port settled
   * after u (or never), the preferences allow entering it, and it chains after the leg
   * recorded into u, that port's distance is at most u's plus the leg's weight.
   */
  ghost predicate LegRelaxed(ports: seq<Port>, prefs: Option<UserPreferences>, findCheapest: bool, src: int,
                             dist: seq<int>, parent: seq<int>, via: seq<Route>, rank: seq<int>, u: int, r: Route)
    requires |dist| == |parent| == |via| == |rank| == |ports| && 0 <= u < |ports|
  {
    var v := PortIndex(ports, r.destination);
    (v != -1 && rank[u] < rank[v] && LegAllowed(ports, prefs, v, r) &&
     (u != src && parent[u] != -1 ==> IsValidLegTransition(via[u], r))) ==>
    dist[v] <= dist[u] + EdgeWeight(findCheapest, ports, v, r)
  }

  /** Every leg in `legs` out of u has been relaxed. */
  ghost predicate LegsRelaxed(ports: seq<Port>, prefs: Option<UserPreferences>, findCheapest: bool, src: int,
                              dist: seq<int>, parent: seq<int>, via: seq<Route>, rank: seq<int>, u: int,
                              legs: seq<Route>)
    requires |dist| == |parent| == |via| == |rank| == |ports| && 0 <= u < |ports|
  {
    forall r {:trigger LegRelaxed(ports, prefs, findCheapest, src, dist, parent, via, rank, u, r)} ::
      r in legs ==> LegRelaxed(ports, prefs, findCheapest, src, dist, parent, via, rank, u, r)
  }

  /** Every leg of u's row has been relaxed. */
  ghost predicate PortRelaxed(ports: seq<Port>, routes: seq<seq<Route>>, prefs: Option<UserPreferences>,
                              findCheapest: bool, src: int, dist: seq<int>, parent: seq<int>,
                              via: seq<Route>, rank: seq<int>, u: int)
    requires |routes| == |dist| == |parent| == |via| == |rank| == |ports| && 0 <= u < |ports|
  {
    LegsRelaxed(ports, prefs, findCheapest, src, dist, parent, via, rank, u, routes[u])
  }

  /** Every settled port (rank below |ports|) has had all its legs relaxed. */
  ghost predicate Closed(ports: seq<Port>, routes: seq<seq<Route>>, prefs: Option<UserPreferences>,
                         findCheapest: bool, src: int, dist: seq<int>, parent: seq<int>,
                         via: seq<Route>, rank: seq<int>)
    requires |routes| == |dist| == |parent| == |via| == |rank| == |ports|
  {
    forall u {:trigger PortRelaxed(ports, routes, prefs, findCheapest, src, dist, parent, via, rank, u)} ::
      0 <= u < |ports| && rank[u] < |ports| ==>
      PortRelaxed(ports, routes, prefs, findCheapest, src, dist, parent, via, rank, u)
  }

  /**
   * Between two states of the records no distance rose, and a port that is settled, or
   * whose distance did not drop, kept its distance, parent and leg.
   */
  ghost predicate Lowered(dist: seq<int>, parent: seq<int>, via: seq<Route>,
                          dist': seq<int>, parent': seq<int>, via': seq<Route>, visited: seq<bool>)
  {
    |dist| == |parent| == |via| == |visited| && |dist'| == |parent'| == |via'| == |dist| &&
    forall x {:trigger dist'[x]} :: 0 <= x < |dist| ==>
      dist'[x] <= dist[x] &&
      ((visited[x] || dist'[x] == dist[x]) ==> dist'[x] == dist[x] && parent'[x] == parent[x] && via'[x] == via[x])
  }

  /**
   * Every leg into a known port weighs at least zero. Durations computed from clock times do;
   * prices and fees are read from the data and may not.
   */
  ghost predicate NonNegativeWeights(ports: seq<Port>, routes: seq<seq<Route>>, findCheapest: bool) {
    forall u, r :: 0 <= u < |routes| && r in routes[u] && 0 <= PortIndex(ports, r.destination) ==>
      EdgeWeight(findCheapest, ports, PortIndex(ports, r.destination), r) >= 0
  }

  /**
   * Closest first: a settled port is no farther than any port settled after it, and no
   * farther than any port not settled at all (rank |dist|).
   */
  ghost predicate ClosestFirst(dist: seq<int>, rank: seq<int>)
    requires |rank| == |dist|
  {
    forall x, y :: 0 <= x < |dist| && 0 <= y < |dist| && rank[x] < |dist| && rank[x] < rank[y] ==> dist[x] <= dist[y]
  }

  /**
   * `settled` lists the settled ports in the order they were settled: settled[i] has rank i,
   * and every port of rank below |rank| is listed at its rank. So no two settled ports share
   * a rank.
   */
  ghost predicate SettleOrder(rank: seq<int>, settled: seq<int>) {
    (forall i :: 0 <= i < |settled| ==> 0 <= settled[i] < |rank| && rank[settled[i]] == i) &&
    (forall v :: 0 <= v < |rank| && 0 <= rank[v] < |rank| ==> rank[v] < |settled| && settled[rank[v]] == v)
  }

  /**
   * The search ran to its end: settled ports are reached and ranked in settling order, every
   * settled port's legs were relaxed, and the rounds stopped either after |ports| - 1 ports
   * were settled or once every reached port was settled.
   */
  ghost predicate RelaxationComplete(ports: seq<Port>, routes: seq<seq<Route>>, prefs: Option<UserPreferences>,
                                     findCheapest: bool, src: int, dist: seq<int>, parent: seq<int>,
                                     via: seq<Route>, rank: seq<int>)
    requires |routes| == |dist| == |parent| == |via| == |rank| == |ports|
  {
    (forall v :: 0 <= v < |ports| ==> rank[v] <= |ports| && (rank[v] < |ports| ==> dist[v] < INF)) &&
    Closed(ports, routes, prefs, findCheapest, src, dist, parent, via, rank) &&
    (NonNegativeWeights(ports, routes, findCheapest) ==> ClosestFirst(dist, rank)) &&
    exists settled :: SettleOrder(rank, settled) &&
      (|settled| == |ports| - 1 || forall v :: 0 <= v < |ports| && dist[v] < INF ==> rank[v] < |ports|)
  }

  /**
   * What a search from the port named `srcName` returns: nothing found, with all distances INF
   * and no parents, exactly when the name is unknown or the source is avoided; otherwise the
   * source's index and records forming a complete relaxation tree (with the legs `via` and the
   * settling order `rank` that the search kept alongside).
   */
  ghost predicate SearchOutcome(ports: seq<Port>, routes: seq<seq<Route>>, srcName: string, findCheapest: bool,
                                prefs: Option<UserPreferences>, result: ShortestRouteResult,
                                via: seq<Route>, rank: seq<int>)
  {
    |result.dist| == |ports| && |result.parent| == |ports| &&
    (result.found <==> SourceAccepted(ports, srcName, prefs)) &&
    (!result.found ==> (result.srcIdx == -1 &&
      forall v :: 0 <= v < |ports| ==> result.dist[v] == INF && result.parent[v] == -1)) &&
    (result.found ==> (result.srcIdx == PortIndex(ports, srcName) &&
      RelaxationTree(ports, routes, prefs, findCheapest, result.srcIdx, result.dist, result.parent, via, rank) &&
      result.dist == Searched(ports, routes, prefs, findCheapest, result.srcIdx).dist &&
      result.parent == Searched(ports, routes, prefs, findCheapest, result.srcIdx).parent &&
      RelaxationComplete(ports, routes, prefs, findCheapest, result.srcIdx, result.dist, result.parent, via, rank)))
  }

  /**
   * The records between two rounds of the search: `visited` ports carry the ranks 0 .. step-1
   * in the order they were settled, unvisited ports rank |ports|; a parent is always a settled
   * port, a settled port is reached, and nothing is settled before the source.
   */
  ghost predicate SearchState(ports: seq<Port>, routes: seq<seq<Route>>, prefs: Option<UserPreferences>,
                              findCheapest: bool, src: int, dist: seq<int>, parent: seq<int>,
                              via: seq<Route>, visited: seq<bool>, rank: seq<int>, step: int)
  {
    var n := |ports|;
    |routes| == n && |dist| == n && |parent| == n && |via| == n && |visited| == n && |rank| == n &&
    0 <= src < n && dist[src] == 0 && parent[src] == -1 && 0 <= step <= n &&
    (!visited[src] ==> forall v :: 0 <= v < n ==> !visited[v] && parent[v] == -1) &&
    (forall v :: 0 <= v < n ==> dist[v] <= INF) &&
    (forall v :: 0 <= v < n && visited[v] ==> 0 <= rank[v] < step && dist[v] < INF) &&
    (forall v :: 0 <= v < n && !visited[v] ==> rank[v] == n) &&
    (forall v {:trigger parent[v]} :: 0 <= v < n ==> (dist[v] < INF <==> v == src || parent[v] != -1)) &&
    (forall v :: 0 <= v < n && parent[v] != -1 ==>
      0 <= parent[v] < n && visited[parent[v]] && rank[parent[v]] < rank[v]) &&
    (forall v {:trigger TreeEdge(ports, routes, prefs, findCheapest, src, dist, parent, via, v)} ::
      0 <= v < n && parent[v] != -1 ==>
      TreeEdge(ports, routes, prefs, findCheapest, src, dist, parent, via, v))
  }

  /** Before the first round only the source is at distance 0 and nothing has a parent. */
  lemma SearchStart(ports: seq<Port>, routes: seq<seq<Route>>, prefs: Option<UserPreferences>,
                    findCheapest: bool, src: int, via: seq<Route>)
    requires |routes| == |ports| == |via| && 0 <= src < |ports|
    ensures var n := |ports|;
      SearchState(ports, routes, prefs, findCheapest, src, seq(n, _ => INF)[src := 0], seq(n, _ => -1),
                  via, seq(n, _ => false), seq(n, _ => n), 0)
  {
  }

  /** Settling the unvisited, reached port u (the source first) keeps the records consistent. */
  lemma SettleKeeps(ports: seq<Port>, routes: seq<seq<Route>>, prefs: Option<UserPreferences>,
                    findCheapest: bool, src: int, dist: seq<int>, parent: seq<int>,
                    via: seq<Route>, visited: seq<bool>, rank: seq<int>, step: int, u: int,
                    visited': seq<bool>, rank': seq<int>)
    requires SearchState(ports, routes, prefs, findCheapest, src, dist, parent, via, visited, rank, step)
    requires 0 <= u < |ports| && !visited[u] && dist[u] < INF && step < |ports|
    requires visited' == visited[u := true] && rank' == rank[u := step]
    ensures u == src || visited[src]
    ensures SearchState(ports, routes, prefs, findCheapest, src, dist, parent, via, visited', rank', step + 1)
  {
    var n := |ports|;
    var vis, rk := visited[u := true], rank[u := step];
    forall v | 0 <= v < n && parent[v] != -1
      ensures 0 <= parent[v] < n && vis[parent[v]] && rk[parent[v]] < rk[v]
    {
      assert parent[v] != u;
    }
  }

  /** The tree edges after lowering the distance of the unvisited port v through the settled port u. */
  lemma RelaxTreeEdges(ports: seq<Port>, routes: seq<seq<Route>>, prefs: Option<UserPreferences>,
                       findCheapest: bool, src: int, dist: seq<int>, parent: seq<int>,
                       via: seq<Route>, visited: seq<bool>, rank: seq<int>, step: int,
                       u: int, v: int, route: Route, d: seq<int>, p: seq<int>, w: seq<Route>)
    requires SearchState(ports, routes, prefs, findCheapest, src, dist, parent, via, visited, rank, step)
    requires 0 <= u < |ports| && visited[u] && 0 <= v < |ports| && !visited[v]
    requires route in routes[u] && PortIndex(ports, route.destination) == v && LegAllowed(ports, prefs, v, route)
    requires u != src && parent[u] != -1 ==> IsValidLegTransition(via[u], route)
    requires d == dist[v := dist[u] + EdgeWeight(findCheapest, ports, v, route)]
    requires p == parent[v := u] && w == via[v := route]
    ensures forall x {:trigger TreeEdge(ports, routes, prefs, findCheapest, src, d, p, w, x)} ::
      0 <= x < |ports| && p[x] != -1 ==> TreeEdge(ports, routes, prefs, findCheapest, src, d, p, w, x)
  {
    assert u != src ==> parent[u] != -1;
    forall x | 0 <= x < |ports| && p[x] != -1
      ensures TreeEdge(ports, routes, prefs, findCheapest, src, d, p, w, x)
    {
      if x != v {
        assert TreeEdge(ports, routes, prefs, findCheapest, src, dist, parent, via, x);
        assert parent[x] != v;
      }
    }
  }

  /**
   * Lowering the distance of the unvisited port v through the settled port u by an allowed leg
   * of u's row that resolves to v and chains after the leg into u keeps the records consistent.
   */
  lemma RelaxKeeps(ports: seq<Port>, routes: seq<seq<Route>>, prefs: Option<UserPreferences>,
                   findCheapest: bool, src: int, dist: seq<int>, parent: seq<int>,
                   via: seq<Route>, visited: seq<bool>, rank: seq<int>, step: int,
                   u: int, v: int, route: Route, d: seq<int>, p: seq<int>, w: seq<Route>)
    requires SearchState(ports, routes, prefs, findCheapest, src, dist, parent, via, visited, rank, step)
    requires 0 <= u < |ports| && visited[u] && 0 <= v < |ports| && !visited[v]
    requires route in routes[u] && PortIndex(ports, route.destination) == v && LegAllowed(ports, prefs, v, route)
    requires u != src && parent[u] != -1 ==> IsValidLegTransition(via[u], route)
    requires dist[u] + EdgeWeight(findCheapest, ports, v, route) < dist[v]
    requires d == dist[v := dist[u] + EdgeWeight(findCheapest, ports, v, route)]
    requires p == parent[v := u] && w == via[v := route]
    ensures SearchState(ports, routes, prefs, findCheapest, src, d, p, w, visited, rank, step)
  {
    RelaxTreeEdges(ports, routes, prefs, findCheapest, src, dist, parent, via, visited, rank, step, u, v, route, d, p, w);
    assert v != src;
  }

  /** Trying a leg of the settled port u's row keeps the records consistent. */
  lemma TriedKeeps(ports: seq<Port>, routes: seq<seq<Route>>, prefs: Option<UserPreferences>,
                   findCheapest: bool, src: int, dist: seq<int>, parent: seq<int>,
                   via: seq<Route>, visited: seq<bool>, rank: seq<int>, step: int,
                   u: int, r: Route, dist': seq<int>, parent': seq<int>, via': seq<Route>)
    requires SearchState(ports, routes, prefs, findCheapest, src, dist, parent, via, visited, rank, step)
    requires 0 <= u < |ports| && visited[u] && r in routes[u]
    requires LegTried(ports, prefs, findCheapest, src, dist, parent, via, visited, u, r, dist', parent', via')
    ensures SearchState(ports, routes, prefs, findCheapest, src, dist', parent', via', visited, rank, step)
  {
    var v := PortIndex(ports, r.destination);
    if LegUsable(ports, prefs, src, parent, via, visited, u, r) && dist[u] + EdgeWeight(findCheapest, ports, v, r) < dist[v] {
      RelaxKeeps(ports, routes, prefs, findCheapest, src, dist, parent, via, visited, rank, step, u, v, r,
                 dist', parent', via');
    }
  }

  /**
   * Trying the leg r out of the settled port u (the step RelaxLeg takes) only lowers
   * distances, leaves settled ports and unlowered ports as they were, and relaxes r.
   */
  lemma RelaxStep(ports: seq<Port>, prefs: Option<UserPreferences>, findCheapest: bool, src: int,
                  dist: seq<int>, parent: seq<int>, via: seq<Route>, visited: seq<bool>, rank: seq<int>,
                  u: int, r: Route, dist': seq<int>, parent': seq<int>, via': seq<Route>)
    requires |dist| == |parent| == |via| == |visited| == |rank| == |ports| && 0 <= u < |ports| && visited[u]
    requires forall x :: 0 <= x < |ports| && visited[x] ==> rank[x] <= rank[u]
    requires LegTried(ports, prefs, findCheapest, src, dist, parent, via, visited, u, r, dist', parent', via')
    ensures Lowered(dist, parent, via, dist', parent', via', visited)
    ensures LegRelaxed(ports, prefs, findCheapest, src, dist', parent', via', rank, u, r)
  {
  }

  /** Lowering twice, with the same ports settled, is lowering. */
  lemma LoweredTrans(d0: seq<int>, p0: seq<int>, w0: seq<Route>, d1: seq<int>, p1: seq<int>, w1: seq<Route>,
                     d2: seq<int>, p2: seq<int>, w2: seq<Route>, visited: seq<bool>)
    requires Lowered(d0, p0, w0, d1, p1, w1, visited) && Lowered(d1, p1, w1, d2, p2, w2, visited)
    ensures Lowered(d0, p0, w0, d2, p2, w2, visited)
  {
  }

  /**
   * A relaxed leg out of u stays relaxed while distances only drop, u's own records stay,
   * and no port that was settled no later than u comes to rank after it.
   */
  lemma LegRelaxedKeeps(ports: seq<Port>, prefs: Option<UserPreferences>, findCheapest: bool, src: int,
                        dist: seq<int>, parent: seq<int>, via: seq<Route>, rank: seq<int>,
                        dist': seq<int>, parent': seq<int>, via': seq<Route>, rank': seq<int>, u: int, r: Route)
    requires |dist| == |parent| == |via| == |rank| == |ports| && 0 <= u < |ports|
    requires |dist'| == |parent'| == |via'| == |rank'| == |ports|
    requires LegRelaxed(ports, prefs, findCheapest, src, dist, parent, via, rank, u, r)
    requires forall x :: 0 <= x < |ports| ==> dist'[x] <= dist[x]
    requires dist'[u] == dist[u] && parent'[u] == parent[u] && via'[u] == via[u] && rank'[u] == rank[u]
    requires forall x :: 0 <= x < |ports| && rank'[u] < rank'[x] ==> rank[u] < rank[x]
    ensures LegRelaxed(ports, prefs, findCheapest, src, dist', parent', via', rank', u, r)
  {
  }

  /** PortRelaxed is kept under the same conditions, leg by leg. */
  lemma PortRelaxedKeeps(ports: seq<Port>, routes: seq<seq<Route>>, prefs: Option<UserPreferences>,
                         findCheapest: bool, src: int, dist: seq<int>, parent: seq<int>, via: seq<Route>,
                         rank: seq<int>, dist': seq<int>, parent': seq<int>, via': seq<Route>, rank': seq<int>, u: int)
    requires |routes| == |dist| == |parent| == |via| == |rank| == |ports| && 0 <= u < |ports|
    requires |dist'| == |parent'| == |via'| == |rank'| == |ports|
    requires PortRelaxed(ports, routes, prefs, findCheapest, src, dist, parent, via, rank, u)
    requires forall x :: 0 <= x < |ports| ==> dist'[x] <= dist[x]
    requires dist'[u] == dist[u] && parent'[u] == parent[u] && via'[u] == via[u] && rank'[u] == rank[u]
    requires forall x :: 0 <= x < |ports| && rank'[u] < rank'[x] ==> rank[u] < rank[x]
    ensures PortRelaxed(ports, routes, prefs, findCheapest, src, dist', parent', via', rank', u)
  {
    forall r | r in routes[u]
      ensures LegRelaxed(ports, prefs, findCheapest, src, dist', parent', via', rank', u, r)
    {
      LegRelaxedKeeps(ports, prefs, findCheapest, src, dist, parent, via, rank, dist', parent', via', rank', u, r);
    }
  }

  /**
   * The loop over u's row after its first k legs: the records are consistent and lowered since
   * the row began (d0, p0, w0), those k legs are relaxed, and trying the remaining legs gives
   * what trying the whole row from the start gives.
   */
  ghost predicate RowProgress(ports: seq<Port>, routes: seq<seq<Route>>, prefs: Option<UserPreferences>,
                              findCheapest: bool, src: int, d0: seq<int>, p0: seq<int>, w0: seq<Route>,
                              dist: seq<int>, parent: seq<int>, via: seq<Route>, visited: seq<bool>,
                              rank: seq<int>, step: int, u: int, k: int)
  {
    // compared with `true` as a whole, as BetweenRounds below
    (SearchState(ports, routes, prefs, findCheapest, src, dist, parent, via, visited, rank, step) &&
     0 <= u < |ports| && 0 <= k <= |routes[u]| &&
     Lowered(d0, p0, w0, dist, parent, via, visited) &&
     LegsRelaxed(ports, prefs, findCheapest, src, dist, parent, via, rank, u, routes[u][..k]) &&
     TryLegs(ports, prefs, findCheapest, src, visited, u, routes[u][k..], Records(dist, parent, via)) ==
     TryLegs(ports, prefs, findCheapest, src, visited, u, routes[u], Records(d0, p0, w0))) == true
  }

  /** Before the loop over u's row nothing has been tried. */
  lemma RowStart(ports: seq<Port>, routes: seq<seq<Route>>, prefs: Option<UserPreferences>, findCheapest: bool,
                 src: int, dist: seq<int>, parent: seq<int>, via: seq<Route>, visited: seq<bool>,
                 rank: seq<int>, step: int, u: int)
    requires SearchState(ports, routes, prefs, findCheapest, src, dist, parent, via, visited, rank, step)
    requires 0 <= u < |ports|
    ensures RowProgress(ports, routes, prefs, findCheapest, src, dist, parent, via, dist, parent, via, visited,
                        rank, step, u, 0)
  {
    assert routes[u][0..] == routes[u];
  }

  /** After the loop over u's row every leg of the row has been tried, in order. */
  lemma RowEnd(ports: seq<Port>, routes: seq<seq<Route>>, prefs: Option<UserPreferences>, findCheapest: bool,
               src: int, d0: seq<int>, p0: seq<int>, w0: seq<Route>, dist: seq<int>, parent: seq<int>,
               via: seq<Route>, visited: seq<bool>, rank: seq<int>, step: int, u: int)
    requires 0 <= u < |routes|
    requires RowProgress(ports, routes, prefs, findCheapest, src, d0, p0, w0, dist, parent, via, visited,
                         rank, step, u, |routes[u]|)
    ensures SearchState(ports, routes, prefs, findCheapest, src, dist, parent, via, visited, rank, step)
    ensures Lowered(d0, p0, w0, dist, parent, via, visited)
    ensures PortRelaxed(ports, routes, prefs, findCheapest, src, dist, parent, via, rank, u)
    ensures Records(dist, parent, via) == TryLegs(ports, prefs, findCheapest, src, visited, u, routes[u],
                                                  Records(d0, p0, w0))
  {
    assert routes[u][..|routes[u]|] == routes[u] && routes[u][|routes[u]|..] == [];
  }

  /**
   * One round of the loop over u's row: trying its k-th leg keeps the records consistent and
   * lowered since the row began, relaxes that leg too, and leaves the rest of the row to try.
   */
  lemma RelaxNext(ports: seq<Port>, routes: seq<seq<Route>>, prefs: Option<UserPreferences>, findCheapest: bool,
                  src: int, d0: seq<int>, p0: seq<int>, w0: seq<Route>, dist: seq<int>, parent: seq<int>,
                  via: seq<Route>, visited: seq<bool>, rank: seq<int>, step: int, u: int, k: int,
                  dist': seq<int>, parent': seq<int>, via': seq<Route>)
    requires RowProgress(ports, routes, prefs, findCheapest, src, d0, p0, w0, dist, parent, via, visited,
                         rank, step, u, k)
    requires visited[u] && forall x :: 0 <= x < |ports| && visited[x] ==> rank[x] <= rank[u]
    requires k < |routes[u]|
    requires LegTried(ports, prefs, findCheapest, src, dist, parent, via, visited, u, routes[u][k], dist', parent', via')
    ensures RowProgress(ports, routes, prefs, findCheapest, src, d0, p0, w0, dist', parent', via', visited,
                        rank, step, u, k + 1)
  {
    var legs := routes[u];
    TriedKeeps(ports, routes, prefs, findCheapest, src, dist, parent, via, visited, rank, step, u, legs[k],
               dist', parent', via');
    RelaxStep(ports, prefs, findCheapest, src, dist, parent, via, visited, rank, u, legs[k], dist', parent', via');
    LoweredTrans(d0, p0, w0, dist, parent, via, dist', parent', via', visited);
    assert legs[..k + 1] == legs[..k] + [legs[k]];
    forall r | r in legs[..k + 1]
      ensures LegRelaxed(ports, prefs, findCheapest, src, dist', parent', via', rank, u, r)
    {
      if r != legs[k] {
        LegRelaxedKeeps(ports, prefs, findCheapest, src, dist, parent, via, rank, dist', parent', via', rank, u, r);
      }
    }
    TryLegsStep(ports, prefs, findCheapest, src, visited, u, legs, k, Records(dist, parent, via),
                Records(dist', parent', via'));
  }

  /**
   * Settling u in round `step` and relaxing its legs keeps every earlier settled port relaxed,
   * so the records stay closed under the new ranks.
   */
  lemma ClosedStep(ports: seq<Port>, routes: seq<seq<Route>>, prefs: Option<UserPreferences>,
                   findCheapest: bool, src: int, dist: seq<int>, parent: seq<int>, via: seq<Route>, rank: seq<int>,
                   dist': seq<int>, parent': seq<int>, via': seq<Route>, visited': seq<bool>, u: int, step: int)
    requires |rank| == |dist| == |parent| == |via| == |ports| && 0 <= u < |ports| && rank[u] == |ports|
    requires SearchState(ports, routes, prefs, findCheapest, src, dist', parent', via', visited', rank[u := step], step + 1)
    requires Lowered(dist, parent, via, dist', parent', via', visited')
    requires Closed(ports, routes, prefs, findCheapest, src, dist, parent, via, rank)
    requires PortRelaxed(ports, routes, prefs, findCheapest, src, dist', parent', via', rank[u := step], u)
    ensures Closed(ports, routes, prefs, findCheapest, src, dist', parent', via', rank[u := step])
  {
    var rank' := rank[u := step];
    forall x | 0 <= x < |ports| && rank'[x] < |ports|
      ensures PortRelaxed(ports, routes, prefs, findCheapest, src, dist', parent', via', rank', x)
    {
      if x != u {
        assert visited'[x] && PortRelaxed(ports, routes, prefs, findCheapest, src, dist, parent, via, rank, x);
        PortRelaxedKeeps(ports, routes, prefs, findCheapest, src, dist, parent, via, rank,
                         dist', parent', via', rank', x);
      }
    }
  }

  /** Settling the unsettled port u next appends it to the settle order at the next rank. */
  lemma SettleOrderStep(rank: seq<int>, settled: seq<int>, u: int)
    requires SettleOrder(rank, settled) && 0 <= u < |rank| && rank[u] == |rank| && |settled| < |rank|
    ensures SettleOrder(rank[u := |settled|], settled + [u])
  {
    var rk, st := rank[u := |settled|], settled + [u];
    forall i | 0 <= i < |st| ensures 0 <= st[i] < |rk| && rk[st[i]] == i {
      if i < |settled| {
        assert st[i] == settled[i] && settled[i] != u;
      }
    }
  }

  /**
   * When the rounds stop, after |ports| - 1 settled ports or with every reached port settled,
   * the records form a relaxation tree and the search is complete.
   */
  lemma SearchComplete(ports: seq<Port>, routes: seq<seq<Route>>, prefs: Option<UserPreferences>,
                       findCheapest: bool, src: int, dist: seq<int>, parent: seq<int>,
                       via: seq<Route>, visited: seq<bool>, rank: seq<int>, step: int, settled: seq<int>)
    requires SearchState(ports, routes, prefs, findCheapest, src, dist, parent, via, visited, rank, step)
    requires Closed(ports, routes, prefs, findCheapest, src, dist, parent, via, rank)
    requires SettleOrder(rank, settled) && |settled| == step
    requires NonNegativeWeights(ports, routes, findCheapest) ==> ClosestFirst(dist, rank)
    requires step == |ports| - 1 || forall v :: 0 <= v < |ports| && dist[v] < INF ==> visited[v]
    ensures RelaxationTree(ports, routes, prefs, findCheapest, src, dist, parent, via, rank)
    ensures RelaxationComplete(ports, routes, prefs, findCheapest, src, dist, parent, via, rank)
  {
    SearchEnd(ports, routes, prefs, findCheapest, src, dist, parent, via, visited, rank, step);
    assert SettleOrder(rank, settled) &&
      (|settled| == |ports| - 1 || forall v :: 0 <= v < |ports| && dist[v] < INF ==> rank[v] < |ports|);
  }

  /**
   * With non-negative weights, trying legs out of the settled port u keeps u's distance, and
   * every distance it changes ends at least as far as u.
   */
  lemma {:induction false} TryLegsAbove(ports: seq<Port>, routes: seq<seq<Route>>, prefs: Option<UserPreferences>,
                                        findCheapest: bool, src: int, visited: seq<bool>, u: int,
                                        legs: seq<Route>, s: Records)
    requires |routes| == |ports| && Sized(s, |ports|) && |visited| == |ports| && 0 <= u < |ports| && visited[u]
    requires NonNegativeWeights(ports, routes, findCheapest) && forall r :: r in legs ==> r in routes[u]
    ensures var s' := TryLegs(ports, prefs, findCheapest, src, visited, u, legs, s);
      s'.dist[u] == s.dist[u] &&
      forall y :: 0 <= y < |ports| ==> s'.dist[y] == s.dist[y] || s'.dist[y] >= s.dist[u]
    decreases |legs|
  {
    if legs != [] {
      var t := TryLeg(ports, prefs, findCheapest, src, visited, u, legs[0], s);
      assert legs[0] in routes[u];
      assert t.dist[u] == s.dist[u] && forall y :: 0 <= y < |ports| ==> t.dist[y] == s.dist[y] || t.dist[y] >= s.dist[u];
      assert forall r :: r in legs[1..] ==> r in legs;
      TryLegsAbove(ports, routes, prefs, findCheapest, src, visited, u, legs[1..], t);
    }
  }

  /**
   * Settling the closest unvisited port u at rank `step`, then changing only distances that
   * stay at least u's, keeps the settled ports closest first.
   */
  lemma SettleInOrder(dist: seq<int>, visited: seq<bool>, rank: seq<int>, step: int, u: int, dist': seq<int>)
    requires |dist| == |visited| == |rank| == |dist'| && 0 <= step < |dist|
    requires forall x :: 0 <= x < |dist| ==> (visited[x] ==> rank[x] < step) && (!visited[x] ==> rank[x] == |dist|)
    requires ClosestFirst(dist, rank)
    requires 0 <= u < |dist| && !visited[u] && forall y :: 0 <= y < |dist| && !visited[y] ==> dist[u] <= dist[y]
    requires forall x :: 0 <= x < |dist| && (visited[x] || x == u) ==> dist'[x] == dist[x]
    requires forall y :: 0 <= y < |dist| ==> dist'[y] == dist[y] || dist'[y] >= dist[u]
    ensures ClosestFirst(dist', rank[u := step])
  {
    var rank' := rank[u := step];
    forall x, y | 0 <= x < |dist| && 0 <= y < |dist| && rank'[x] < |dist| && rank'[x] < rank'[y]
      ensures dist'[x] <= dist'[y]
    {
      if x != u {
        assert rank[x] < |dist| == rank[u];
      }
    }
  }

  /**
   * The search between two rounds, `count` rounds in: the records are consistent, every settled
   * port's row is relaxed, `settled` lists the settled ports in order, with non-negative
   * weights they were settled closest first, and the remaining rounds lead to `final`.
   */
  ghost predicate BetweenRounds(ports: seq<Port>, routes: seq<seq<Route>>, prefs: Option<UserPreferences>,
                                findCheapest: bool, src: int, dist: seq<int>, parent: seq<int>, via: seq<Route>,
                                visited: seq<bool>, rank: seq<int>, count: int, settled: seq<int>, final: Records)
  {
    // compared with `true` as a whole, so that it is checked as one fact and not conjunct by conjunct
    (SearchState(ports, routes, prefs, findCheapest, src, dist, parent, via, visited, rank, count) &&
     Closed(ports, routes, prefs, findCheapest, src, dist, parent, via, rank) &&
     SettleOrder(rank, settled) && |settled| == count &&
     (NonNegativeWeights(ports, routes, findCheapest) ==> ClosestFirst(dist, rank)) &&
     Rounds(ports, routes, prefs, findCheapest, src, Records(dist, parent, via), visited, count) == final) == true
  }

  /**
   * Before the first round only the source is reached, nothing is settled, and the rounds
   * ahead lead to the records of the whole search.
   */
  lemma RoundsBegin(ports: seq<Port>, routes: seq<seq<Route>>, prefs: Option<UserPreferences>,
                    findCheapest: bool, src: int, dist: seq<int>, parent: seq<int>, via: seq<Route>,
                    visited: seq<bool>, rank: seq<int>)
    requires |routes| == |ports| && 0 <= src < |ports|
    requires |dist| == |parent| == |via| == |visited| == |rank| == |ports|
    requires forall v :: 0 <= v < |ports| ==>
      dist[v] == (if v == src then 0 else INF) && parent[v] == -1 && via[v] == NO_LEG &&
      !visited[v] && rank[v] == |ports|
    ensures BetweenRounds(ports, routes, prefs, findCheapest, src, dist, parent, via, visited, rank, 0, [],
                          Searched(ports, routes, prefs, findCheapest, src))
  {
    var n := |ports|;
    assert dist == seq(n, _ => INF)[src := 0] && parent == seq(n, _ => -1) && via == seq(n, _ => NO_LEG);
    assert visited == seq(n, _ => false) && rank == seq(n, _ => n);
    SearchStart(ports, routes, prefs, findCheapest, src, via);
  }

  /** A round that settles the closest port u leaves the rounds after it to do the rest. */
  lemma RoundsStep(ports: seq<Port>, routes: seq<seq<Route>>, prefs: Option<UserPreferences>, findCheapest: bool,
                   src: int, s: Records, visited: seq<bool>, count: int, u: int)
    requires |routes| == |ports| && Sized(s, |ports|) && |visited| == |ports|
    requires count < |ports| - 1 && u == ClosestAmong(s.dist, visited, |ports|) && u != -1
    ensures Rounds(ports, routes, prefs, findCheapest, src, s, visited, count) ==
      Rounds(ports, routes, prefs, findCheapest, src,
             TryLegs(ports, prefs, findCheapest, src, visited[u := true], u, routes[u], s),
             visited[u := true], count + 1)
  {
  }

  /**
   * When the rounds stop, after |ports| - 1 of them or with no reached port left unsettled, the
   * records are the final ones, form a relaxation tree, and the search is complete.
   */
  lemma RoundsEnd(ports: seq<Port>, routes: seq<seq<Route>>, prefs: Option<UserPreferences>,
                  findCheapest: bool, src: int, dist: seq<int>, parent: seq<int>, via: seq<Route>,
                  visited: seq<bool>, rank: seq<int>, count: int, settled: seq<int>, final: Records)
    requires BetweenRounds(ports, routes, prefs, findCheapest, src, dist, parent, via, visited, rank, count,
                           settled, final)
    requires count == |ports| - 1 || ClosestAmong(dist, visited, |ports|) == -1
    ensures Records(dist, parent, via) == final
    ensures RelaxationTree(ports, routes, prefs, findCheapest, src, dist, parent, via, rank)
    ensures RelaxationComplete(ports, routes, prefs, findCheapest, src, dist, parent, via, rank)
  {
    SearchComplete(ports, routes, prefs, findCheapest, src, dist, parent, via, visited, rank, count, settled);
  }

  /** When the rounds end, the records form a relaxation tree. */
  lemma SearchEnd(ports: seq<Port>, routes: seq<seq<Route>>, prefs: Option<UserPreferences>,
                  findCheapest: bool, src: int, dist: seq<int>, parent: seq<int>,
                  via: seq<Route>, visited: seq<bool>, rank: seq<int>, step: int)
    requires SearchState(ports, routes, prefs, findCheapest, src, dist, parent, via, visited, rank, step)
    ensures RelaxationTree(ports, routes, prefs, findCheapest, src, dist, parent, via, rank)
  {
  }

  /** The tree edge into v, for a port with a parent record. */
  lemma EdgeAt(ports: seq<Port>, routes: seq<seq<Route>>, prefs: Option<UserPreferences>,
               findCheapest: bool, src: int, dist: seq<int>, parent: seq<int>,
               via: seq<Route>, rank: seq<int>, v: int)
    requires RelaxationTree(ports, routes, prefs, findCheapest, src, dist, parent, via, rank)
    requires 0 <= v < |ports|
    ensures parent[v] != -1 ==> TreeEdge(ports, routes, prefs, findCheapest, src, dist, parent, via, v)
  {
  }

  /** Every parent link points to a port in range that was settled earlier. */
  ghost predicate Ranked(parent: seq<int>, rank: seq<int>) {
    |parent| == |rank| &&
    (forall w :: 0 <= w < |parent| ==> 0 <= rank[w]) &&
    (forall w {:trigger parent[w]} :: 0 <= w < |parent| && parent[w] != -1 ==>
      0 <= parent[w] < |parent| && rank[parent[w]] < rank[w])
  }

  /**
   * The ports from the source to v, following parent records back from v. Ranks grow along
   * the path, so no port repeats.
   */
  function TreePath(parent: seq<int>, rank: seq<int>, src: int, v: int): (path: seq<int>)
    requires Ranked(parent, rank) && 0 <= v < |parent|
    ensures |path| >= 1 && path[|path| - 1] == v
    ensures forall i :: 0 <= i < |path| ==> 0 <= path[i] < |parent|
    ensures path[0] == src || parent[path[0]] == -1
    ensures forall i :: 1 <= i < |path| ==> path[i] != src
    ensures forall i {:trigger parent[path[i]]} :: 1 <= i < |path| ==> parent[path[i]] == path[i - 1]
    ensures forall i :: 0 <= i < |path| ==> rank[path[i]] <= rank[v]
    ensures forall i :: 1 <= i < |path| ==> rank[path[i - 1]] < rank[path[i]]
    decreases rank[v]
  {
    if v == src || parent[v] == -1 then [v] else TreePath(parent, rank, src, parent[v]) + [v]
  }

  /** The legs recorded into the ports of a tree path after its first. */
  function TreeLegs(via: seq<Route>, path: seq<int>): seq<Route>
    requires |path| >= 1 && forall i :: 0 <= i < |path| ==> 0 <= path[i] < |via|
  {
    seq(|path| - 1, i requires 0 <= i < |path| - 1 => via[path[i + 1]])
  }

  /** Sum of the edge weights along a walk. */
  function WalkWeight(findCheapest: bool, ports: seq<Port>, path: seq<int>, legs: seq<Route>): int
    requires |path| == |legs| + 1 && InRange(ports, path)
  {
    if legs == [] then 0
    else
      WalkWeight(findCheapest, ports, path[..|path| - 1], legs[..|legs| - 1]) +
      EdgeWeight(findCheapest, ports, path[|path| - 1], legs[|legs| - 1])
  }

  /** Extending a tree path by one port adds the leg recorded into that port. */
  lemma TreeLegsSnoc(via: seq<Route>, path: seq<int>, v: int)
    requires |path| >= 1 && forall i :: 0 <= i < |path| ==> 0 <= path[i] < |via|
    requires 0 <= v < |via|
    ensures TreeLegs(via, path + [v]) == TreeLegs(via, path) + [via[v]]
  {
    var p := path + [v];
    assert forall i :: 0 <= i < |path| ==> p[i] == path[i];
  }

  /** A simple walk from `src` whose legs chain in time and respect the preferences, of weight d. */
  ghost predicate RouteFrom(ports: seq<Port>, routes: seq<seq<Route>>, prefs: Option<UserPreferences>,
                            findCheapest: bool, src: int, path: seq<int>, legs: seq<Route>, d: int)
  {
    Walk(ports, routes, path, legs) && path[0] == src &&
    (forall i :: 0 <= i < |legs| ==> LegAllowed(ports, prefs, path[i + 1], legs[i])) &&
    d == WalkWeight(findCheapest, ports, path, legs)
  }

  /**
   * The parent records from v lead back to the source along a simple walk whose legs chain in
   * time, whose ports and legs all respect the preferences, and whose weight is v's distance.
   */
  ghost predicate RecordedRoute(ports: seq<Port>, routes: seq<seq<Route>>, prefs: Option<UserPreferences>,
                                findCheapest: bool, src: int, dist: seq<int>, parent: seq<int>,
                                via: seq<Route>, rank: seq<int>, v: int)
    requires Ranked(parent, rank) && |dist| == |parent| == |via| && 0 <= v < |parent|
  {
    var path := TreePath(parent, rank, src, v);
    RouteFrom(ports, routes, prefs, findCheapest, src, path, TreeLegs(via, path), dist[v])
  }

  /** Appending an allowed leg to a walk whose legs are all allowed. */
  lemma AllowedSnoc(ports: seq<Port>, prefs: Option<UserPreferences>, path: seq<int>, legs: seq<Route>,
                    v: int, leg: Route)
    requires |path| == |legs| + 1 && InRange(ports, path) && 0 <= v < |ports|
    requires forall i :: 0 <= i < |legs| ==> LegAllowed(ports, prefs, path[i + 1], legs[i])
    requires LegAllowed(ports, prefs, v, leg)
    ensures var p, l := path + [v], legs + [leg];
      forall i :: 0 <= i < |l| ==> 0 <= p[i + 1] < |ports| && LegAllowed(ports, prefs, p[i + 1], l[i])
  {
    var p, l := path + [v], legs + [leg];
    forall i | 0 <= i < |l| ensures 0 <= p[i + 1] < |ports| && LegAllowed(ports, prefs, p[i + 1], l[i]) {
      if i < |legs| {
        assert l[i] == legs[i] && p[i + 1] == path[i + 1];
      } else {
        assert l[i] == leg && p[i + 1] == v;
      }
    }
  }

  /** Appending a leg adds its edge weight. */
  lemma WeightSnoc(findCheapest: bool, ports: seq<Port>, path: seq<int>, legs: seq<Route>, v: int, leg: Route)
    requires |path| == |legs| + 1 && InRange(ports, path) && 0 <= v < |ports|
    ensures InRange(ports, path + [v])
    ensures WalkWeight(findCheapest, ports, path + [v], legs + [leg]) ==
      WalkWeight(findCheapest, ports, path, legs) + EdgeWeight(findCheapest, ports, v, leg)
  {
    var p, l := path + [v], legs + [leg];
    assert p[..|p| - 1] == path && l[..|l| - 1] == legs;
  }

  /**
   * A route from the source extended by one more allowed leg that chains after its last; the
   * extended walk is given as path', legs' and its weight as d'.
   */
  lemma RouteSnoc(ports: seq<Port>, routes: seq<seq<Route>>, prefs: Option<UserPreferences>, findCheapest: bool,
                  src: int, path: seq<int>, legs: seq<Route>, d: int, v: int, leg: Route,
                  path': seq<int>, legs': seq<Route>, d': int)
    requires RouteFrom(ports, routes, prefs, findCheapest, src, path, legs, d)
    requires leg in routes[path[|path| - 1]] && Extends(ports, path, legs, leg)
    requires v == PortIndex(ports, leg.destination) && LegAllowed(ports, prefs, v, leg)
    requires path' == path + [v] && legs' == legs + [leg] && d' == d + EdgeWeight(findCheapest, ports, v, leg)
    ensures RouteFrom(ports, routes, prefs, findCheapest, src, path', legs', d')
  {
    WalkExtend(ports, routes, path, legs, leg);
    AllowedSnoc(ports, prefs, path, legs, v, leg);
    WeightSnoc(findCheapest, ports, path, legs, v, leg);
  }

  /** The tree path of a port with a parent is its parent's tree path followed by the port, which is not on it. */
  lemma TreePathStep(parent: seq<int>, rank: seq<int>, src: int, v: int)
    requires Ranked(parent, rank) && 0 <= v < |parent|
    requires v != src && parent[v] != -1
    ensures TreePath(parent, rank, src, v) == TreePath(parent, rank, src, parent[v]) + [v]
    ensures v !in TreePath(parent, rank, src, parent[v])
  {
    var prev := TreePath(parent, rank, src, parent[v]);
    forall i | 0 <= i < |prev| ensures prev[i] != v {
      assert rank[prev[i]] <= rank[parent[v]];
    }
  }

  /** The recorded route into v is the recorded route into its parent plus the tree edge. */
  lemma RecordedRouteStep(ports: seq<Port>, routes: seq<seq<Route>>, prefs: Option<UserPreferences>,
                          findCheapest: bool, src: int, dist: seq<int>, parent: seq<int>,
                          via: seq<Route>, rank: seq<int>, v: int)
    requires Ranked(parent, rank) && |routes| == |ports| == |dist| == |parent| == |via|
    requires 0 <= v < |ports| && v != src && parent[v] != -1
    requires TreeEdge(ports, routes, prefs, findCheapest, src, dist, parent, via, v)
    requires RecordedRoute(ports, routes, prefs, findCheapest, src, dist, parent, via, rank, parent[v])
    ensures RecordedRoute(ports, routes, prefs, findCheapest, src, dist, parent, via, rank, v)
  {
    var u := parent[v];
    var prev := TreePath(parent, rank, src, u);
    var prevLegs := TreeLegs(via, prev);
    var path := TreePath(parent, rank, src, v);
    TreePathStep(parent, rank, src, v);
    TreeLegsSnoc(via, prev, v);
    assert |prevLegs| > 0 ==> prevLegs[|prevLegs| - 1] == via[u] && u != src;
    RouteSnoc(ports, routes, prefs, findCheapest, src, prev, prevLegs, dist[u], v, via[v],
              path, TreeLegs(via, path), dist[v]);
  }

  /** Every port the search reached has a recorded route from the source. */
  lemma {:induction false} ReachedPortHasRoute(ports: seq<Port>, routes: seq<seq<Route>>, prefs: Option<UserPreferences>,
                                               findCheapest: bool, src: int, dist: seq<int>, parent: seq<int>,
                                               via: seq<Route>, rank: seq<int>, v: int)
    requires RelaxationTree(ports, routes, prefs, findCheapest, src, dist, parent, via, rank)
    requires 0 <= v < |ports| && dist[v] < INF
    ensures RecordedRoute(ports, routes, prefs, findCheapest, src, dist, parent, via, rank, v)
    decreases rank[v]
  {
    if v == src {
      assert TreePath(parent, rank, src, v) == [v];
    } else {
      EdgeAt(ports, routes, prefs, findCheapest, src, dist, parent, via, rank, v);
      ReachedPortHasRoute(ports, routes, prefs, findCheapest, src, dist, parent, via, rank, parent[v]);
      RecordedRouteStep(ports, routes, prefs, findCheapest, src, dist, parent, via, rank, v);
    }
  }

  /** In cost mode a walk's weight is the itinerary total cost; in time mode its total time. */
  lemma {:induction false} WalkWeightIsItineraryTotal(findCheapest: bool, ports: seq<Port>, path: seq<int>, legs: seq<Route>)
    requires |path| == |legs| + 1 && InRange(ports, path)
    ensures WalkWeight(findCheapest, ports, path, legs) ==
      if findCheapest then MakeCompleteRoute(ports, path, legs).totalCost
      else MakeCompleteRoute(ports, path, legs).totalTime
  {
    if legs != [] {
      WalkWeightIsItineraryTotal(findCheapest, ports, path[..|path| - 1], legs[..|legs| - 1]);
    }
  }

  /**
   * An avoid-listed port other than an accepted source is never reached: its distance stays
   * INF.
   */
  lemma AvoidedPortUnreached(ports: seq<Port>, routes: seq<seq<Route>>, prefs: Option<UserPreferences>,
                             findCheapest: bool, src: int, dist: seq<int>, parent: seq<int>,
                             via: seq<Route>, rank: seq<int>, v: int)
    requires RelaxationTree(ports, routes, prefs, findCheapest, src, dist, parent, via, rank)
    requires 0 <= v < |ports| && v != src && prefs.Some? && PortIsAvoid(ports[v].name, prefs.value)
    ensures dist[v] == INF
  {
    EdgeAt(ports, routes, prefs, findCheapest, src, dist, parent, via, rank, v);
  }

  /**
   * In cost mode, when the recorded route to `dest` has at most MAX_LAYOVERS + 1 legs, the
   * enumerator lists it, and its total cost is the distance reported for `dest`: Dijkstra's
   * answer is never cheaper than the cheapest enumerated itinerary.
   */
  lemma CheapestDistanceIsEnumerated(ports: seq<Port>, routes: seq<seq<Route>>, prefs: Option<UserPreferences>,
                                     src: int, dist: seq<int>, parent: seq<int>, via: seq<Route>,
                                     rank: seq<int>, dest: int)
    requires RelaxationTree(ports, routes, prefs, true, src, dist, parent, via, rank)
    requires 0 <= dest < |ports| && dest != src && dist[dest] < INF
    requires |TreePath(parent, rank, src, dest)| <= MAX_LAYOVERS + 2
    ensures var path := TreePath(parent, rank, src, dest);
      var r := MakeCompleteRoute(ports, path, TreeLegs(via, path));
      r in AllRoutes(ports, routes, src, dest) && r.totalCost == dist[dest]
  {
    var path := TreePath(parent, rank, src, dest);
    var legs := TreeLegs(via, path);
    ReachedPortHasRoute(ports, routes, prefs, true, src, dist, parent, via, rank, dest);
    WalkWeightIsItineraryTotal(true, ports, path, legs);
    assert |path| >= 2;
    EnumerationComplete(ports, routes, src, dest, path, legs);
  }

  /**
   * In cost mode, when the recorded route to `dest` has at most MAX_LAYOVERS + 1 legs, an
   * enumerated itinerary that nothing beats costs no more than the distance reported for `dest`.
   */
  lemma CheapestEnumeratedWithinDistance(ports: seq<Port>, routes: seq<seq<Route>>, prefs: Option<UserPreferences>,
                                         src: int, dist: seq<int>, parent: seq<int>, via: seq<Route>,
                                         rank: seq<int>, dest: int, best: CompleteRoute)
    requires RelaxationTree(ports, routes, prefs, true, src, dist, parent, via, rank)
    requires 0 <= dest < |ports| && dest != src && dist[dest] < INF
    requires |TreePath(parent, rank, src, dest)| <= MAX_LAYOVERS + 2
    requires forall r :: r in AllRoutes(ports, routes, src, dest) ==> !Cheaper(r, best)
    ensures best.totalCost <= dist[dest]
  {
    CheapestDistanceIsEnumerated(ports, routes, prefs, src, dist, parent, via, rank, dest);
    var path := TreePath(parent, rank, src, dest);
    var r := MakeCompleteRoute(ports, path, TreeLegs(via, path));
    assert !Cheaper(r, best);
  }
}
