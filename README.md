# Shipping-schedule routing engine, modelled in Dafny

This project models the routing engine of a desktop shipping-schedule planner. The planner
keeps a table of ports, each with an arrival fee. Parallel to that table it keeps, per port, a
row of scheduled legs. A leg has a destination name, a departure date (`DD-MM-YYYY`),
departure and arrival clock times (`HH:MM`), a price, a shipping company and a duration.
On that graph the engine answers four kinds of question:

- a label-setting shortest-path search (Dijkstra) by duration or by price, honouring user
  preferences (an avoid-list of ports, an allow-list of companies, a maximum leg duration) and
  the rule that a leg may only follow one that arrived before it departs;
- a depth-first enumeration of every simple, temporally chained itinerary of at most
  `MAX_LAYOVERS + 1 = 4` legs, and the pick of its cheapest member;
- a preference filter that builds a reduced copy of the graph;
- small queries used by the journey builder: direct-route tests, leg lookup, the totals of a
  journey under construction, and whether a port can be slotted between two neighbours.

Module layout:

| module | file | models |
|---|---|---|
| `Schedule` | `schedule.dfy` | legs, ports, itineraries; date and time parsing; the chaining rule |
| `Preferences` | `preferences.dfy` | the user's constraints and the three preference tests |
| `Ports` | `ports.dfy` | name resolution (first match) and first-leg lookup over a row |
| `Itineraries` | `itineraries.dfy` | the enumerator as recursive functions, with soundness and completeness |
| `ShortestPaths` | `shortest_paths.dfy` | what the search leaves behind (the relaxation tree) and what that tree means |
| `Filters` | `filters.dfy` | the filtered copy of the graph |
| `Network` | `network.dfy` | class `Graph` with the imperative operations, proved against the functions above |
| `Journeys` | `journeys.dfy` | class `MultiLegJourney` and the insertion test |
| `Wrappers` | `wrappers.dfy` | `Option` |

How the imperative parts are modelled:

- The graph is a class whose `seq` fields are reassigned by `AddPort` and `AddRoute`.
- The search works on the same four arrays as the program: `dist`, `visited`, `parent` and the
  last leg recorded into each port. Its ghost out-parameters give the recorded legs and the
  order in which ports were settled. Through them the postcondition states the tree the search
  builds.
- The enumerator is a recursive method with a loop over the current port's row. It is proved
  equal to the recursive function `Itineraries.Dfs`. Lemmas then show that this function yields
  exactly the itineraries the program means to return.

## Model

| member | source | states |
|---|---|---|
| Schedule.DateToInt | main.cpp:191-196 | the number is yyyymmdd: dividing by 10000 gives the year, the middle two digits the month, the last two the day |
| Schedule.DateToIntOrder | main.cpp:191-196 | comparing the yyyymmdd numbers is comparing calendar dates (year, then month, then day), and equal numbers mean the same date |
| Schedule.TimeToMinutes | main.cpp:198-202 | minutes since midnight: quotient by 60 is the hour, remainder the minute; a clock time gives less than 24*60 |
| Schedule.CalculateTravelTime | main.cpp:327-335 | for clock times, the duration lies in [0, 1440) and departure plus duration is the arrival modulo one day; without wrap it is the plain difference |
| Schedule.TransitionIsStrictOrder | main.cpp:204-217 | a leg may follow another exactly when (previous date, previous arrival minute) is strictly before (next date, next departure minute) in calendar order |
| Schedule.IsValidLegTransition | main.cpp:204-217 | the chaining rule as written; its meaning, a strict calendar order of (previous arrival, next departure), is the contract of TransitionIsStrictOrder |
| Schedule.IsValidRoutePath | main.cpp:219-229 | true exactly when there is at least one leg, one leg per consecutive pair of ports, and every adjacent pair of legs chains |
| Schedule.ChainedDatesNondecreasing | main.cpp:204-229 | along a chained leg sequence the departure dates never decrease |
| Preferences.Contains | main.cpp:562-585 | the early-return scan over a name list answers list membership |
| Preferences.PortIsAvoid | main.cpp:562-568 | with the port filter off nothing is avoided; with it on, exactly the listed names are |
| Preferences.RouteHasPreferredCompany | main.cpp:570-577 | with the company filter off every leg passes; with it on, exactly the legs of a listed company |
| Preferences.RouteMatchesPreferences | main.cpp:579-585 | a leg matches exactly when it passes the company test and, if the time filter is on, its duration is at most the maximum |
| Ports.PortIndex | main.cpp:252-259 | an index whose port has the name, -1 exactly when no port has it |
| Ports.PortIndexFirst | main.cpp:252-259 | no port before the resolved index has the name: the match is the first one |
| Ports.PortIndexAppendKnown | main.cpp:236-259 | appending a port never changes where an already known name resolves |
| Ports.PortIndexAppendNew | main.cpp:241-250 | a name unknown so far resolves to the port appended for it |
| Ports.FirstLegTo | main.cpp:843-851 | the first position at or after k of a leg whose destination resolves to the port, -1 exactly when there is none |
| Network.AddRouteAppendsOneLeg | main.cpp:241-250 | adding a leg keeps one row per port, appends a fee-less port only for an unknown origin, appends the leg to the origin's row and leaves every other row as it was |
| Network.ClosestUnvisited | main.cpp:389-398 | the selection loop returns ClosestAmong over all ports: the first unvisited port of least distance below INF, and -1 exactly when every unvisited port is at INF |
| Network.Graph.constructor | main.cpp:231-234 | an empty graph |
| Network.Graph.AddPort | main.cpp:236-239 | appends the port with no weather list and an empty row |
| Network.Graph.AddRoute | main.cpp:241-250 | the new table is the old one with the leg added under the origin name, creating that port if unknown |
| Network.Graph.GetPortIndex | main.cpp:252-259 | the scan returns the first match, or -1 |
| Network.Graph.HasDirectRoute | main.cpp:823-834 | true exactly when both indices are in range and some leg of the first port's row resolves to the second |
| Network.Graph.GetRoutesFromPort | main.cpp:836-841 | the port's row, or empty for an index out of range |
| Network.Graph.GetRouteBetween | main.cpp:843-851 | the first leg of the row that resolves to the target port; none exactly when no leg does |
| Network.Graph.DirectRouteHasLeg | main.cpp:823-851 | the direct-route test succeeds exactly when the lookup finds a leg, and that leg is in the origin's row |
| Network.Graph.Dijkstra | main.cpp:366-435 | an unknown or avoided source gives an all-INF, parentless result marked not found; otherwise the source index is the first port of that name, at distance 0 with no parent, the distances and parents are exactly those of ShortestPaths.Searched (all rounds from fresh records), they form a relaxation tree rooted there, every settled port had every leg of its row relaxed, the rounds stopped after n-1 ports or with every reached port settled, and with non-negative weights the ports were settled in order of their final distance |
| Network.Graph.Search | main.cpp:386-432 | the arrays left by the main loop are exactly ShortestPaths.Searched, the fold of the rounds from the fresh records; they form a relaxation tree over the settle order, every settled port's row is relaxed against the final distances, the settled ports are listed in settling order, either n-1 ports were settled or every reached port was, and with non-negative weights a port settled earlier is no farther than one settled later |
| Network.Graph.RunRounds | main.cpp:388-432 | the main loop: the invariant between rounds (ShortestPaths.BetweenRounds) holds when it ends, and it ends either after n - 1 rounds over n ports or because the pick ClosestAmong was -1 or a port at INF |
| Network.Graph.Round | main.cpp:388-431 | given the port ClosestAmong picks, one round ranks it at this round and leaves exactly the records TryLegs computes from its row; no distance rises, every settled port keeps all its legs relaxed, settling stays closest first under non-negative weights, and the rounds still ahead lead to the same final records |
| Network.Graph.Settle | main.cpp:399-431 | marks the reached port settled at this round's rank and leaves exactly the records TryLegs computes from its row; this keeps the search invariant, only lowers distances, and relaxes every leg of the port's row |
| Network.Graph.RelaxOutLegs | main.cpp:402-431 | the records after the loop are exactly TryLegs over the row in row order, so among equal offers the first strictly better leg is the one kept; every leg of the row is relaxed, no distance rose, and settled ports and ports whose distance did not drop are untouched |
| Network.Graph.RelaxLeg | main.cpp:403-430 | a leg whose destination is unknown or settled, that the preferences reject, or that does not chain after the leg recorded into its origin changes nothing; any other leg is offered to the port it enters exactly as Improve does |
| Network.Graph.PassesFilters | main.cpp:406-414 | the three preference checks let a leg through exactly when no preferences are given, or the entered port is not avoided and the leg passes the company and duration constraints |
| Network.Graph.Improve | main.cpp:423-430 | when the origin's distance plus the leg's weight is below the entered port's distance, that port gets that distance, the origin as parent and the leg, all three together; otherwise nothing changes |
| Network.Graph.FindShortestRoute | main.cpp:437-440 | the search by duration, with the outcome stated for Dijkstra |
| Network.Graph.FindCheapestRoute | main.cpp:442-445 | the search by price plus the fee of the port entered, with the outcome stated for Dijkstra |
| Network.Graph.MakeItinerary | main.cpp:459-474 | the itinerary record built by the two summing loops equals the one the enumerator specification builds |
| Network.Graph.DfsEnumerateRoutes | main.cpp:447-507 | the results after the call are the results before it followed by what the recursive specification enumerates from this prefix |
| Network.Graph.EnumerateRow | main.cpp:483-506 | the results after the loop over the current port's row are the results before it followed by what the specification enumerates through each leg of the row, in row order |
| Network.Graph.FollowLeg | main.cpp:484-505 | one leg of the row adds exactly what the specification enumerates through it when its destination resolves, is off the path and the leg chains, and nothing otherwise |
| Network.Graph.FindAllPossibleRoutes | main.cpp:526-540 | the list is the enumeration for (origin, destination), empty for an index out of range |
| Network.Graph.FindCheapestEnumeratedRoute | main.cpp:542-560 | fails exactly when nothing is enumerated, and then leaves the output alone; otherwise returns an enumerated itinerary that none is cheaper than (price, then duration), the first such in the list |
| Network.Graph.ApplyFilters | main.cpp:587-608 | the allowed list is the non-avoided port indices in order, and each filtered row is the order-preserving selection of the legs that pass the filter |
| Network.Graph.FilterRow | main.cpp:597-605 | the legs kept from one row are the order-preserving selection of those that pass the filter |
| Itineraries.DfsSound | main.cpp:447-507 | every result of a search call is a simple chained walk from the prefix's start to the destination, of at most maxLegs legs, with exact totals |
| Itineraries.DfsComplete | main.cpp:447-507 | every simple chained walk to the destination within the leg bound is found by the search called on any of its prefixes |
| Itineraries.EnumerationSound | main.cpp:526-540 | every enumerated itinerary is a simple, chained walk from the origin to the destination with 1 to 4 legs and passes the path check, and its totals are exact |
| Itineraries.EnumerationComplete | main.cpp:526-540 | every such walk appears in the enumeration |
| Itineraries.NoRouteToItself | main.cpp:447-507 | the enumeration from a port to itself is empty, since a simple walk cannot come back |
| Itineraries.CheaperOrder | main.cpp:550-558 | the comparison is irreflexive and asymmetric, and it is transitive as the running-minimum scan uses it |
| Filters.AllowedPortsExactly | main.cpp:591-595 | the allowed list holds exactly the non-avoided indices, in strictly increasing order |
| Filters.KeptLegsExactly | main.cpp:597-605 | a leg is kept exactly when it is in the row and neither end is avoided and it matches the preferences; nothing is added |
| Filters.AvoidedPortKeepsNoLeg | main.cpp:597-605 | an avoided port's filtered row is empty |
| ShortestPaths.SearchEnd | main.cpp:386-432 | the loop invariant of the search gives the relaxation tree |
| ShortestPaths.SearchComplete | main.cpp:388-399 | when the rounds stop, after n-1 settled ports or with every reached port settled, the records are a relaxation tree and the search is complete |
| ShortestPaths.RelaxStep | main.cpp:403-430 | trying one leg out of the most recently settled port never raises a distance, leaves settled ports alone, and leaves that leg relaxed |
| ShortestPaths.RelaxNext | main.cpp:402-431 | each pass of the row loop keeps the search invariant, keeps the records lowered since the row began, extends the relaxed prefix of the row by one leg, and leaves TryLegs over the rest of the row equal to TryLegs over the whole row from the start |
| ShortestPaths.TriedKeeps | main.cpp:403-430 | trying a leg of a settled port's row keeps every recorded parent edge an allowed, chained leg whose weight adds up |
| ShortestPaths.RelaxKeeps | main.cpp:426-430 | an improving update through an allowed, chained leg keeps the search invariant |
| ShortestPaths.ClosedStep | main.cpp:399-431 | settling a port and relaxing its row keeps every earlier settled port's legs relaxed, since distances only dropped and settled records did not move |
| ShortestPaths.SettleKeeps | main.cpp:398-400 | marking the chosen reached port settled at this round's rank keeps the search invariant, and the source is the first port settled |
| ShortestPaths.SettleOrderStep | main.cpp:388-400 | ranking the port settled in this round after the earlier ones extends the settling order by that port |
| ShortestPaths.ReachedPortHasRoute | main.cpp:366-435 | following parents from any port with finite distance gives a simple chained walk from the source over legs allowed by the preferences, whose weight is exactly that distance |
| ShortestPaths.WalkWeightIsItineraryTotal | main.cpp:423-424 | the weight the search adds along a walk is the itinerary's total price (price mode) or total duration (duration mode) |
| ShortestPaths.AvoidedPortUnreached | main.cpp:406-408 | an avoided port other than the source never gets a finite distance |
| ShortestPaths.CheapestDistanceIsEnumerated | main.cpp:366-560 | in price mode, the parent path of a reached port with at most 4 legs is an enumerated itinerary whose total price is the port's distance |
| ShortestPaths.CheapestEnumeratedWithinDistance | main.cpp:366-560 | in price mode, for such a port, the cheapest enumerated itinerary costs no more than the search's distance |
| ShortestPaths.TreePath | main.cpp:426-430 | the parent chain ends at the port, stays in range, starts at the source or a parentless port, never revisits the source, and climbs strictly in settle order |
| ShortestPaths.ClosestAmong | main.cpp:389-398 | over the first k ports: -1 exactly when each is visited or at INF; otherwise an unvisited port below INF no farther than any unvisited port, and strictly closer than every unvisited port before it (the strict `<` keeps the first of equals) |
| ShortestPaths.TryLegsAbove | main.cpp:402-431 | with non-negative weights, relaxing the row of the settled port u leaves dist[u] alone and lowers a port only to a distance of at least dist[u] |
| ShortestPaths.SettleInOrder | main.cpp:388-431 | when the settled ports are in order of distance and the closest unvisited port is settled next, the relaxation after it (as TryLegsAbove bounds it) keeps the settled ports in order of distance |
| ShortestPaths.RoundsBegin | main.cpp:366-388 | the fresh records with the source at 0 satisfy the search invariant with nothing settled, and the rounds from them are Searched |
| ShortestPaths.RoundsStep | main.cpp:388-431 | a round that settles the port ClosestAmong picks and folds TryLegs over its row leaves the remaining rounds to compute the same records |
| ShortestPaths.RoundsEnd | main.cpp:388-399 | when the loop stops, after n-1 rounds or with no reached port unsettled, the records are the final ones, form a relaxation tree, and the search is complete |
| Journeys.MultiLegJourney.CalculateTotals | main.cpp:861-875 | the total price is the valid legs' prices plus the fee of every port after the first; the total duration is the valid legs' durations; nothing else changes |
| Journeys.ValidSumsAreLegSums | main.cpp:864-870 | the journey's leg sums are the itinerary sums over its valid legs alone |
| Journeys.JourneyTotalsMatchItinerary | main.cpp:861-875 | a journey whose legs are all valid has the totals the enumerator would give the same ports and legs |
| Journeys.CanPortBeInserted | main.cpp:3390-3406 | true exactly when a direct leg leads in from the neighbour before (if any) and out to the neighbour after (if any) |
| Journeys.InsertionHasLegs | main.cpp:3390-3406 | an accepted insertion between two neighbours has all indices in range and a concrete leg on each side |

## Left out

- File parsing (`parseWeatherData`, `parsePorts`, `parseRoute`, main.cpp:260-325) and every console or graphics output are not part of this model. `stoi` cannot fail here: dates and times are fixed-width digit strings by type.
- The graphical interface, the docking-queue animation, random ship generation, weather queries, booking and the path-formatting helpers are outside the routing core.
- Integer width is not modelled. `int` is unbounded, so sums of prices and durations never wrap, and `INF` (10^9) is an ordinary number.
- `Route{}` is not representable, because its date would be empty. `GetRouteBetween` returns `None` where the program returns that default leg. The search initialises its leg array with the placeholder `NO_LEG`, which is never read before a real leg is written.
- Network.Graph.DfsEnumerateRoutes: the path and leg vectors the program pushes and pops are passed by value, and the result list is threaded through as input and output. The method requires `maxLegs >= 0`: the program's cast of a negative bound to an unsigned size is not modelled. Its only caller passes 4.
- Network.Graph.FindAllPossibleRoutes: soundness and completeness are stated as the separate lemmas EnumerationSound and EnumerationComplete, not in its postcondition.
- Network.Graph.Dijkstra: no optimality is claimed. Each port keeps a single recorded incoming leg, and the chaining rule depends on it, so a costlier but earlier-arriving arrival can be discarded and the distance need not be the cheapest chained walk. The model proves that each finite distance is the weight of a real, allowed, chained walk (ReachedPortHasRoute), and in price mode how it relates to the enumeration (CheapestDistanceIsEnumerated, CheapestEnumeratedWithinDistance).
- Network.Graph.Search: that ports are settled in order of their final distance (ShortestPaths.ClosestFirst) is stated only when every leg weight is non-negative (ShortestPaths.NonNegativeWeights). Prices, fees and durations come from the data files and nothing in the program keeps them non-negative; with a negative weight a later round can lower a port below one settled earlier. Which port each round picks is stated without that premise, through ClosestAmong.
- ShortestPaths.CheapestEnumeratedWithinDistance: stated only for ports whose parent path has at most 4 legs, because longer parent paths are never enumerated.
- The chaining rule compares the next departure with the previous leg's departure date plus its arrival clock time. A leg that crosses midnight is therefore treated as arriving on its departure date. This is modelled as written (Schedule.IsValidLegTransition).
- The search loop and its body are split into methods with the same branches as the program: the loop itself (RunRounds), one round (Round), settling a port within it (Settle), the loop over its row (RelaxOutLegs), one leg (RelaxLeg) and the distance update (Improve). In the same way the enumerator's row loop and the handling of one leg are EnumerateRow and FollowLeg, and the inner loop of the filter is FilterRow.
- The preference tests, the direct-route test and the leg lookup are loops without local state in the program. They are modelled as recursive functions (Contains, FirstLegTo) that return the same first-match answer.
- `isAddingBefore` of the insertion test is accepted and ignored, as in the program.
