# Moscow public transport: actual arrival times, stop charts and transport labels

This project models the decision logic of the Moscow public-transport
analysis scripts (`mostra` and its example scripts) and proves properties of
that logic. The scripts work on a forecast log. Each row says which vehicle
(`tmId`), which route direction (`route_path_id`) and which stop it is about.
It also says when the forecast was requested (`request_time`), which arrival
it predicted (`forecast_time`), and whether the prediction came from live
telemetry (`byTelemetry == 1`) or from the timetable (`byTelemetry == 0`).
All times are integer epoch seconds.

The model covers:

- **Actual-arrival inference** (`examples/1_assign_actual_arrival_time.py`):
  - deduplicate a (vehicle, direction, stop) group;
  - split its scheduled rows into cases, where a gap of ten minutes or more opens a new case (module `Segmentation`);
  - attach each telemetry row to the case of its nearest scheduled row when that row is less than twenty minutes away;
  - drop cases with request-time collisions;
  - for each remaining case, stamp the forecast of the telemetry row closest to arrival as `arrival_time`, if that row's horizon is under two minutes (module `ArrivalTime`);
  - run all of this per group, skipping `tmId == 0` and isolating failures (module `ArrivalDriver`).
- **Schedule aggregation** (`mostra/preprocessing.py`): the same case split, with each case collapsed to its means (module `Preprocessing`).
- **Route enrichment and route-view selection** (`mostra/main.py`, `mostra/routes/routes_with_stops.py`):
  - name each row after its stop and each direction after its transport (modules `StopEnrichment`, `RouteNames`);
  - choose the reference vehicle and the stop order of each route (module `ReferenceSelection`);
  - walk the route directions (modules `Explorer`, `RoutesWithStops`).
- **The two chart scripts**:
  - `examples/2_visualize_actual_arrival_bus_stop.py` picks the (direction, stop) pair with most cases (module `BusStopSelection`);
  - `examples/3_visualize_actual_arrival_by_transport.py` labels the transport of each route and collapses the scheduled rows per case (module `TransportLabels`).

Shared sequence machinery lives in module `Collections`: `unique()`, boolean masks, insertion sort, `argmax`, concatenation and sums. The row records live in module `Rows`.

Operations that change state step by step are methods with loops, proved equal to a specification function. Everything else is a function. What the source promises is proved as lemmas about those functions. An exception in the source becomes a `Raised(error)` result. A `try`/`except` that skips a group becomes a case that contributes nothing.

Three behaviours of the code as written are worth knowing:

- The branch at `examples/1_assign_actual_arrival_time.py:115-117` appends a *distance* rather than a case. It is unreachable: `argsort` puts the smaller distance first. `ArrivalTime.AssignCase` proves it, because its result always equals the nearest-row rule.
- When two telemetry rows of a case share the smallest horizon and some row of the case has another horizon, the arrival list is too long and the assignment raises. The driver then drops the whole group (`ArrivalTime.ResolveCaseFailsIff`, `ArrivalDriver.ArrivalTableRows`). When every row of the case is at that horizon, nothing is left after `dropna`, and the case appends an empty frame.
- The route name replaces `bus` before `tram`, so a `trolleybus` is displayed as `trolleyАвтобус <number>` (`RouteNames.TranslateTrolleybus`).

## Model

| member | source | states |
|---|---|---|
| Segmentation.Segment | examples/1_assign_actual_arrival_time.py:49-68 | one case index per scheduled row; the first is 0; each later one is the previous one plus 1 exactly when the forecast gap to the previous row is at least 600 s |
| Segmentation.CaseIndicesSteps | examples/1_assign_actual_arrival_time.py:53-65 | the case column starts at 0 and grows by one exactly at forecast gaps of at least 600 s |
| Segmentation.CaseOf | examples/1_assign_actual_arrival_time.py:49-66 | the case of row i is at most i |
| Segmentation.CaseOfMonotone | examples/1_assign_actual_arrival_time.py:49-66 | case indices never decrease along the sorted rows |
| Segmentation.SameCaseIffNoOpening | examples/1_assign_actual_arrival_time.py:59-65 | two rows share a case iff no row between them opens a case |
| Segmentation.CaseOfCovers | examples/1_assign_actual_arrival_time.py:62-65 | every case number up to the current one is used by some earlier row (no case is skipped) |
| Segmentation.DifferentCasesAreFarApart | examples/1_assign_actual_arrival_time.py:59-65 | rows in different cases of a forecast-sorted group are at least 600 s apart |
| Segmentation.CaseIndependentOfTieOrder | examples/1_assign_actual_arrival_time.py:44 | a row's case is the same whichever order the unstable sort gives rows with equal forecasts |
| Segmentation.CaseIndicesStepwise | examples/1_assign_actual_arrival_time.py:53-65 | the case column starts at 0 and steps by 0 or 1 |
| Segmentation.SortedDistinctStepwise | examples/1_assign_actual_arrival_time.py:155 | the distinct cases of a group are exactly 0, 1, ..., last case |
| Segmentation.LastCaseIsGapCount | mostra/preprocessing.py:56-62 | the last case index equals the number of gaps of at least 600 s |
| ArrivalTime.FindScheduledRow | examples/1_assign_actual_arrival_time.py:19-35 | a one-row frame gives its row; otherwise the last scheduled row, or the last row when none is scheduled; an empty frame raises |
| ArrivalTime.Deduplicate | examples/1_assign_actual_arrival_time.py:147 | without the id column, every row is kept exactly once and nothing else appears |
| ArrivalTime.DeduplicateIdempotent | examples/1_assign_actual_arrival_time.py:147 | deduplicating twice is the same as deduplicating once |
| ArrivalTime.NearestTwo | examples/1_assign_actual_arrival_time.py:87-96 | the first two positions of `argsort`: the first minimum and the smallest distance among the other positions |
| ArrivalTime.AssignCase | examples/1_assign_actual_arrival_time.py:78-119 | a telemetry row gets a case iff its smallest distance to a scheduled row is under 1200 s, and then the case of a scheduled row at that distance (the `right_distance` branch is never taken) |
| ArrivalTime.AssignedCaseIsNearest | examples/1_assign_actual_arrival_time.py:73-119 | the same nearest-row rule for the specification function of one telemetry row |
| ArrivalTime.AssignTelemetryCases | examples/1_assign_actual_arrival_time.py:71-119 | one label per telemetry row, each by the nearest-row rule; an index error exactly when there is telemetry but no scheduled row |
| ArrivalTime.InKeepAssigned | examples/1_assign_actual_arrival_time.py:124-129 | a telemetry row survives `dropna` exactly with the case it was labelled with |
| ArrivalTime.EnrichWithCasesAndHorizon | examples/1_assign_actual_arrival_time.py:38-131 | the method computes the enriched group of the specification function |
| ArrivalTime.EnrichedRaisesIff | examples/1_assign_actual_arrival_time.py:71-121 | a key error iff the group has no telemetry; an index error iff it has telemetry only; success iff it has both kinds |
| ArrivalTime.InEnriched | examples/1_assign_actual_arrival_time.py:68-129 | the enriched rows are the scheduled rows with their segment case, plus the telemetry rows with an assigned case |
| ArrivalTime.EnrichedRowsFromGroup | examples/1_assign_actual_arrival_time.py:125-129 | every enriched row comes from the group |
| ArrivalTime.EnrichedScheduled | examples/1_assign_actual_arrival_time.py:52-68 | every scheduled row is kept, and its case is the case of its position in forecast order |
| ArrivalTime.InEnrichedTelemetry | examples/1_assign_actual_arrival_time.py:71-129 | a telemetry row is kept with case c iff the nearest-row rule assigns c |
| ArrivalTime.EnrichedKeepsNearTelemetry | examples/1_assign_actual_arrival_time.py:101-113 | a telemetry row within 1200 s of some scheduled row is kept |
| ArrivalTime.EnrichedTelemetryIsNearest | examples/1_assign_actual_arrival_time.py:71-129 | a kept telemetry row is within 1200 s, and its case is that of a nearest scheduled row |
| ArrivalTime.Repeat | examples/1_assign_actual_arrival_time.py:173 | a list repeated n times has n times its length |
| ArrivalTime.MinTelemetryHorizonIsLeast | examples/1_assign_actual_arrival_time.py:167 | the minimum horizon belongs to a telemetry row and bounds all of them |
| ArrivalTime.ResolveCaseSkipsIff | examples/1_assign_actual_arrival_time.py:157-168 | a case yields nothing iff it has a request-time collision or no telemetry horizon under 120 s |
| ArrivalTime.ResolveCaseFailsIff | examples/1_assign_actual_arrival_time.py:170-174 | a case raises iff it passes both guards, two telemetry rows tie at the minimum horizon, and some row is off that horizon |
| ArrivalTime.ResolveCaseArrival | examples/1_assign_actual_arrival_time.py:170-176 | a resolved case keeps only rows off the minimum horizon, all stamped with one arrival, the forecast of a telemetry row at that horizon |
| ArrivalTime.ResolveCaseKeepsRows | examples/1_assign_actual_arrival_time.py:171-172 | every row off the minimum horizon is kept |
| ArrivalTime.CollectRaisesIff | examples/1_assign_actual_arrival_time.py:154-176 | the case loop raises iff some case fails, with the length-mismatch error |
| ArrivalTime.CollectEmptyIff | examples/1_assign_actual_arrival_time.py:154-178 | no frame is collected iff every case is skipped |
| ArrivalTime.CollectFrames | examples/1_assign_actual_arrival_time.py:176 | the collected frames are exactly the frames the cases append |
| ArrivalTime.DefineActualTime | examples/1_assign_actual_arrival_time.py:134-184 | the method computes the specification function `ActualTimes` |
| ArrivalTime.ActualTimesNoneIff | examples/1_assign_actual_arrival_time.py:178-184 | the result is None iff enrichment succeeds and every case is skipped |
| ArrivalTime.ActualTimesRaisesIff | examples/1_assign_actual_arrival_time.py:150-176 | the call raises iff enrichment raises or some case fails |
| ArrivalTime.CaseArrival | examples/1_assign_actual_arrival_time.py:163-176 | every resolved row belongs to its case and carries the forecast of the case's least-horizon telemetry row, whose horizon is under 120 s |
| ArrivalTime.CaseLoopEmptyIff | examples/1_assign_actual_arrival_time.py:154-184 | the case loop yields no frame iff every case is skipped |
| ArrivalTime.CaseLoopRaisesIff | examples/1_assign_actual_arrival_time.py:154-176 | the case loop raises iff some case fails |
| ArrivalTime.ArrivalAnchor | examples/1_assign_actual_arrival_time.py:163-176 | a resolved row comes from the case and its arrival is the forecast of a least-horizon telemetry row under 120 s |
| ArrivalTime.ActualTimesArrival | examples/1_assign_actual_arrival_time.py:134-184 | every output row is an input row, stamped with the forecast of its case's least-horizon telemetry row, under 120 s |
| ArrivalDriver.ProcessGroup | examples/1_assign_actual_arrival_time.py:243-248 | one group contributes a frame only if it has both kinds of rows and `define_actual_time` returns a frame, possibly an empty one |
| ArrivalDriver.ProcessStop | examples/1_assign_actual_arrival_time.py:237-250 | the stop step equals its specification, with an exception turned into no frame |
| ArrivalDriver.ProcessRoute | examples/1_assign_actual_arrival_time.py:233-250 | the stop loop of one direction equals its specification |
| ArrivalDriver.ProcessVehicle | examples/1_assign_actual_arrival_time.py:221-250 | the vehicle step equals its specification; vehicle 0 contributes nothing |
| ArrivalDriver.AssignActualArrivalTime | examples/1_assign_actual_arrival_time.py:216-252 | the whole driver equals `ArrivalTable` |
| ArrivalDriver.InStopGroup | examples/1_assign_actual_arrival_time.py:229-240 | a stop group holds exactly the rows of that vehicle, direction and stop, and only if the stop has coordinates |
| ArrivalDriver.InAllFrames | examples/1_assign_actual_arrival_time.py:216-221 | a frame is collected iff some vehicle in ascending order collects it |
| ArrivalDriver.InVehicleFrames | examples/1_assign_actual_arrival_time.py:223-230 | a vehicle collects frames only when it is not 0, and then from its own directions |
| ArrivalDriver.InRouteFrames | examples/1_assign_actual_arrival_time.py:235-236 | a direction collects exactly the frames of its stops |
| ArrivalDriver.FrameOrigin | examples/1_assign_actual_arrival_time.py:221-248 | every collected frame is the single frame of one group with a nonzero vehicle |
| ArrivalDriver.GroupVisited | examples/1_assign_actual_arrival_time.py:216-236 | every nonempty group is reached by the three nested loops |
| ArrivalDriver.FrameCollected | examples/1_assign_actual_arrival_time.py:221-248 | the frame of any group with a nonzero vehicle is collected |
| ArrivalDriver.ArrivalTableRows | examples/1_assign_actual_arrival_time.py:221-252 | every output row has a nonzero vehicle and a located stop, is an input row, and carries the forecast of a telemetry row of its group with horizon under 120 s |
| ArrivalDriver.GroupArrival | examples/1_assign_actual_arrival_time.py:237-248 | the same for the rows of one group |
| ArrivalDriver.ArrivalFromGroup | examples/1_assign_actual_arrival_time.py:237-248 | every arrival row of a group comes from a row of the group and carries the forecast of a telemetry row of the group under 120 s |
| ArrivalDriver.ArrivalTableCollectsGroup | examples/1_assign_actual_arrival_time.py:221-252 | the rows of every group that yields rows are in the output, and one failing group does not stop the others |
| ArrivalDriver.AllFramesEmptyIff | examples/1_assign_actual_arrival_time.py:219-248 | nothing is collected iff no group of a nonzero vehicle contributes |
| ArrivalDriver.ArrivalTableRaisesIff | examples/1_assign_actual_arrival_time.py:252 | the final concatenation raises iff no group contributed |
| Preprocessing.TelemetryFrame | mostra/preprocessing.py:34-36 | the telemetry frame holds exactly the group's telemetry rows, without their id |
| Preprocessing.ScheduledFrame | mostra/preprocessing.py:38-42 | the raw scheduled frame holds, as raw rows, exactly the group's scheduled rows |
| Preprocessing.Members | mostra/preprocessing.py:65-66 | the members of a case are rows of the group |
| Preprocessing.MembersNonEmpty | mostra/preprocessing.py:66 | every case present in the case column has a member |
| Preprocessing.InMembers | mostra/preprocessing.py:65-66 | a row is a member of case c iff it is labelled c |
| Preprocessing.Aggregate | mostra/preprocessing.py:66-76 | the aggregated frame holds only case-mean rows |
| Preprocessing.AggregateCount | mostra/preprocessing.py:45-76 | one output row per case: 1 plus the number of gaps of at least 600 s |
| Preprocessing.AggregateMeans | mostra/preprocessing.py:66-74 | each case row counts its members, and its forecast and request means lie between the case minimum and maximum |
| Preprocessing.AggregateKeys | mostra/preprocessing.py:66-71 | each case row keeps the direction, stop and vehicle of its group |
| Preprocessing.AggregateSingle | mostra/preprocessing.py:45-76 | one scheduled row aggregates to itself |
| Preprocessing.GroupEmission | mostra/preprocessing.py:34-78 | a group emits frames iff it has a scheduled row |
| Preprocessing.SingleScheduledEmittedTwice | mostra/preprocessing.py:38-78 | a group with one scheduled row emits its telemetry and that row twice: raw and aggregated |
| Preprocessing.GroupTelemetry | mostra/preprocessing.py:34-40 | a group's telemetry is emitted iff the group has a scheduled row |
| Preprocessing.EmissionFrames | mostra/preprocessing.py:34-40 | a group with a scheduled row emits its telemetry frame, and no other frame of the group holds telemetry |
| Preprocessing.ProcessTransport | mostra/preprocessing.py:32-78 | the vehicle step equals `GroupEmission` |
| Preprocessing.ProcessStop | mostra/preprocessing.py:29-78 | the vehicle loop of one stop equals its specification |
| Preprocessing.ProcessPath | mostra/preprocessing.py:25-78 | the stop loop of one direction equals its specification |
| Preprocessing.AggregateScheduleItems | mostra/preprocessing.py:10-80 | the whole function equals `AggregatedTable` |
| Preprocessing.GroupVisited | mostra/preprocessing.py:21-32 | every row's (direction, stop, vehicle) group is visited, vehicle 0 included |
| Preprocessing.InStopFrames | mostra/preprocessing.py:31-32 | a stop emits exactly its vehicles' frames |
| Preprocessing.InPathFrames | mostra/preprocessing.py:27-29 | a direction emits exactly its stops' frames |
| Preprocessing.InEmittedFrames | mostra/preprocessing.py:21-25 | the table emits exactly its directions' frames |
| Preprocessing.FrameOrigin | mostra/preprocessing.py:23-78 | every emitted frame comes from one group |
| Preprocessing.FrameCollected | mostra/preprocessing.py:23-78 | every frame of every group is emitted |
| Preprocessing.AggregatedTableRaisesIff | mostra/preprocessing.py:79 | the final concatenation raises iff the table has no scheduled row |
| Preprocessing.InAggregatedTelemetry | mostra/preprocessing.py:34-79 | a telemetry row is in the output iff its group has a scheduled row |
| Preprocessing.EmittedTelemetryOrigin | mostra/preprocessing.py:34-79 | every emitted telemetry row is an input row from a group with a scheduled row |
| Preprocessing.TelemetryEmitted | mostra/preprocessing.py:34-79 | every telemetry row of a group with a scheduled row is emitted |
| RouteNames.ReplaceAbsent | mostra/main.py:165-166 | `str.replace` leaves a string without the pattern unchanged |
| RouteNames.TranslateBus | mostra/main.py:156-166 | a bus is named `Автобус <number>` |
| RouteNames.TranslateTram | mostra/main.py:156-166 | a tram is named `Трамвай <number>` |
| RouteNames.TranslateTrolleybus | mostra/main.py:156-166 | a trolleybus is named `trolleyАвтобус <number>` |
| StopEnrichment.StopFrame | mostra/main.py:142-162 | one stop contributes at most one frame, and never an empty one |
| StopEnrichment.EnrichStop | mostra/main.py:142-162 | the stop step equals its specification |
| StopEnrichment.CollectStopFrames | mostra/main.py:137-162 | the stop loop equals its specification, and the route name is the label of the last frame |
| StopEnrichment.RouteLabelAppend | mostra/main.py:137-162 | appending one non-empty frame makes the route name that frame's label; appending nothing keeps it |
| StopEnrichment.EnrichWithRouteStopName | mostra/main.py:125-168 | the whole function equals `Enrichment` |
| StopEnrichment.StopFramesOk | mostra/main.py:139-162 | the loop succeeds iff every stop succeeds |
| StopEnrichment.InStopFrames | mostra/main.py:139-162 | the loop collects exactly the single frames of its stops |
| StopEnrichment.InJoinRow | mostra/main.py:154-160 | a row joins with exactly its route's entries and gets the stop's name |
| StopEnrichment.StopFrameRows | mostra/main.py:142-160 | a stop's frame holds exactly its rows joined with their route's entries, named after the stop's first name |
| StopEnrichment.StopFrameOkIff | mostra/main.py:142-147 | a stop succeeds iff it has no rows or has both a name and a route entry; it contributes nothing iff it has no rows |
| StopEnrichment.StopIdsHaveRows | mostra/main.py:132-144 | a stop is visited iff it has rows, so the `len < 1` skip never fires |
| StopEnrichment.EnrichmentRaisesIff | mostra/main.py:139-164 | no rows raise the empty-concatenation error; otherwise an index error iff the route has no entry or some stop has no name; nothing else raises |
| StopEnrichment.StopFramesOkIff | mostra/main.py:139-162 | the loop over a route's stops succeeds iff the route has an entry and every stop has a name |
| StopEnrichment.EnrichedRows | mostra/main.py:139-164 | an enriched row is an input row, joined with an entry of its route and named after its stop's first name, and every such row is present |
| StopEnrichment.StopFrameHead | mostra/main.py:154-157 | a stop's frame begins with the route's first entry |
| StopEnrichment.EnrichedRouteName | mostra/main.py:156-166 | the route name is the translated label of the route's first entry |
| ReferenceSelection.CandidatesShape | mostra/main.py:86-90 | the candidates are the nonzero vehicles of the route, ascending and without repetition |
| ReferenceSelection.ReferenceVehicleIsBusiest | mostra/main.py:86-96 | the reference vehicle is nonzero, on the route and has the most rows; on a tie it has the smallest `tmId` |
| ReferenceSelection.ReferenceVehicleNoneIff | mostra/main.py:86-93 | no reference vehicle iff at most one nonzero vehicle remains |
| ReferenceSelection.SelectedTrackedRows | mostra/main.py:101-110 | a selected view keeps the route's name and rows; its tracked rows are exactly the reference vehicle's scheduled rows, sorted by forecast |
| ReferenceSelection.SelectRouteNoneIff | mostra/main.py:101-106 | with a reference vehicle, the route is skipped iff some stop name is missing from its scheduled rows |
| ReferenceSelection.CoverageIff | mostra/main.py:103-104 | the distinct-count comparison holds iff the tracked rows cover every stop name |
| ReferenceSelection.MissingStopName | mostra/main.py:103-106 | differing counts mean some stop name is missing |
| ReferenceSelection.StopOrderCovers | mostra/main.py:107-108 | the stop order lists every stop name of the route exactly once |
| ReferenceSelection.StopOrderByFirstForecast | mostra/main.py:107-108 | a stop listed earlier has a tracked row no later than every tracked row of a stop listed later |
| ReferenceSelection.FirstAppearanceByForecast | mostra/main.py:107-108 | over forecast-sorted rows, a stop name listed earlier has a row no later than every row of a stop name listed later |
| Explorer.TransportDataExplorer.constructor | mostra/main.py:25-26 | the explorer holds the table it was given |
| Explorer.TransportDataExplorer.PreprocessDataframeForVis | mostra/main.py:67-110 | the generator yields, in order, the views of `RouteViews` |
| Explorer.InRouteViews | mostra/main.py:70-110 | a view is yielded iff some listed route enriches without error and its selection keeps it |
| Explorer.YieldedView | mostra/main.py:73-110 | a yielded view is named after its route's first entry and holds only that route's rows |
| RoutesWithStops.PrepareDfForVisualization | mostra/routes/routes_with_stops.py:18-59 | equals `Enrichment`, the same as `enrich_with_route_stop_name` |
| RoutesWithStops.PreparePlotsForRoute | mostra/routes/routes_with_stops.py:116-181 | returns its input unchanged, and the routes it plots are the views of every direction, ascending |
| RoutesWithStops.PlottedViews | mostra/routes/routes_with_stops.py:132-173 | a view is plotted iff it is the view of some direction present in the table |
| BusStopSelection.ScanRoute | examples/2_visualize_actual_arrival_bus_stop.py:39-56 | the stop loop of one direction continues the running choice |
| BusStopSelection.ScanStop | examples/2_visualize_actual_arrival_bus_stop.py:43-56 | after one stop's step the running choice is the first maximum over every candidate seen so far, that stop's included |
| BusStopSelection.SelectBusStop | examples/2_visualize_actual_arrival_bus_stop.py:30-56 | the whole loop computes `Chosen` |
| BusStopSelection.BestIsFirstMaximum | examples/2_visualize_actual_arrival_bus_stop.py:47-56 | the choice has the most cases, and every earlier pair has strictly fewer |
| BusStopSelection.FirstMaximumIndex | examples/2_visualize_actual_arrival_bus_stop.py:47-56 | the choice sits at an index whose case count is maximal and strictly above every earlier count |
| BusStopSelection.InRouteCandidates | examples/2_visualize_actual_arrival_bus_stop.py:40-49 | a direction's candidates are its stops with scheduled rows, with their distinct case counts |
| BusStopSelection.InAllCandidates | examples/2_visualize_actual_arrival_bus_stop.py:34-49 | the candidates are exactly the pairs with scheduled rows |
| BusStopSelection.ChosenNoneIff | examples/2_visualize_actual_arrival_bus_stop.py:43-51 | nothing is chosen iff the table has no scheduled row |
| BusStopSelection.ScheduledPairIsCandidate | examples/2_visualize_actual_arrival_bus_stop.py:43-49 | every pair with a scheduled row is a candidate |
| BusStopSelection.ChosenHasMostCases | examples/2_visualize_actual_arrival_bus_stop.py:47-56 | the chosen pair has scheduled rows and no pair has more distinct cases |
| BusStopSelection.VisualizeActualArrivalTime | examples/2_visualize_actual_arrival_bus_stop.py:58-96 | the chart is `ChartOf`; with `aggregate`, the per-case rows are `AggregatePerCase` of its points |
| BusStopSelection.InJoinStop | examples/2_visualize_actual_arrival_bus_stop.py:68 | a row joins with exactly the stop-table entries of its stop |
| BusStopSelection.ChosenRowsSorted | examples/2_visualize_actual_arrival_bus_stop.py:58-61 | the chart rows are the chosen pair's scheduled rows, sorted by forecast |
| BusStopSelection.ChartPoints | examples/2_visualize_actual_arrival_bus_stop.py:58-68 | the points are exactly those rows joined with the stop-table entries of the pair |
| BusStopSelection.ChartRaisesIff | examples/2_visualize_actual_arrival_bus_stop.py:58-77 | the chart raises an index error iff nothing is chosen or the stop table has no entry for the pair |
| BusStopSelection.AggregatePerCaseKeys | examples/2_visualize_actual_arrival_bus_stop.py:93-96 | one row per distinct case, ascending, and every case present |
| BusStopSelection.AggregatePerCaseRow | examples/2_visualize_actual_arrival_bus_stop.py:94-95 | each case row counts its points, takes the arrival of the case's first point in chart order, and its mean deviation lies between the case minimum and maximum |
| BusStopSelection.ChartFirstArrivalLeast | examples/2_visualize_actual_arrival_bus_stop.py:61-95 | whatever the tie order of the forecast sort, a case row's arrival is that of a point of the case with the least forecast |
| BusStopSelection.AggregateFirstArrivalLeast | examples/2_visualize_actual_arrival_bus_stop.py:94-95 | over forecast-sorted points, `first` per case takes a point with the case's least forecast |
| BusStopSelection.ChartPointsSorted | examples/2_visualize_actual_arrival_bus_stop.py:61-68 | the chart's rows stay in non-decreasing forecast order after the merge |
| BusStopSelection.AggregatedOnePerCase | examples/2_visualize_actual_arrival_bus_stop.py:49-96 | the aggregated chart has exactly as many rows as the chosen pair has cases |
| BusStopSelection.ChartCases | examples/2_visualize_actual_arrival_bus_stop.py:58-68 | the chart's points span exactly the cases of the chosen pair's scheduled rows |
| TransportLabels.LabelTransportTypes | examples/3_visualize_actual_arrival_by_transport.py:48-61 | one label per entry, by position, each by the tram, minibus and bus rule |
| TransportLabels.TransportLabelClasses | examples/3_visualize_actual_arrival_by_transport.py:50-60 | every label is tram, minibus or bus: tram iff the type is `tram`; minibus iff not a tram and the number has `К`/`к` and does not start with `т`; bus otherwise |
| TransportLabels.VisualizeByTransport | examples/3_visualize_actual_arrival_by_transport.py:34-64 | the chart table is `ChartTable` |
| TransportLabels.TelemetryIgnored | examples/3_visualize_actual_arrival_by_transport.py:34-41 | only scheduled rows enter the per-case rows: dropping or adding telemetry rows changes nothing |
| TransportLabels.SummaryKeys | examples/3_visualize_actual_arrival_by_transport.py:38-41 | a (stop, direction, vehicle, case) group is collapsed iff it has a scheduled row, and only once |
| TransportLabels.SummaryRow | examples/3_visualize_actual_arrival_by_transport.py:35-41 | each collapsed row counts exactly its group's scheduled rows, takes the first one's arrival, and its mean deviation lies between the group's minimum and maximum |
| TransportLabels.InChartTable | examples/3_visualize_actual_arrival_by_transport.py:44-64 | a chart row pairs a collapsed row with a labelled stop-table entry of its direction, every such pair is present, and none is repeated |
| TransportLabels.InJoined | examples/3_visualize_actual_arrival_by_transport.py:44-64 | a pair is in the join iff its collapsed row and labelled stop-table entry are both present and share the route |
| TransportLabels.InRelabelled | examples/3_visualize_actual_arrival_by_transport.py:44-64 | an entry is in the relabelled table iff it is a stop-table entry with its transport type replaced by its label |
| Collections.FirstArgMax | mostra/main.py:95 | `np.argmax`: a position of the maximum, before which every value is smaller |

## Left out

- File I/O is not modelled: CSV reads and writes, the SQLite exploration, and the path helpers. Tables are parameters, and results are returned.
- Plotting (seaborn, matplotlib, `create_plot_with_stops*`), `tqdm`, `print` and `warnings` are not modelled. They do not affect any decision.
- The datetime helper columns are not modelled. Sorting by `forecast_time_datetime` is modelled as sorting by `forecast_time`, which is the same order.
- Means and the minute conversion (`/ 60`) are not computed as floating point. A mean is kept as a sum and a row count, and deviations stay in seconds.
- The day-time bucketing with `HOUR_INTO_DAYTIME` is not modelled, because `mostra.data_structure` is not part of this model.
- The `routePathId` column is not modelled. The aggregate at `mostra/preprocessing.py:71` keeps it with `first`, but it comes from `COLUMN_NAMES` in `mostra.data_structure`, which is not part of this model. So the `CaseMean` rows of module `Preprocessing` do not carry it. The `route_path_id` column is kept.
- The dead code at `examples/3_visualize_actual_arrival_by_transport.py:30-33` is not modelled. It builds a frame `a` that nothing reads.
- The coordinate merge at `examples/1_assign_actual_arrival_time.py:240` is not modelled. It becomes the set of stops that have coordinates: rows of other stops are dropped, and the coordinate columns are not modelled. The model assumes at most one coordinate row per stop. A stop with two distinct coordinate rows would have its rows doubled by the merge, and the copies would survive `drop_duplicates` at `examples/1_assign_actual_arrival_time.py:147`.
- Segmentation.CaseIndependentOfTieOrder: pandas' `sort_values` and `argsort` are not stable. Every sort in the model is one fixed stable insertion sort. The model proves that case indices do not depend on the tie order. Most other outputs are stated as sets or as "some row attaining the minimum". The per-case arrival is stated both ways: `BusStopSelection.AggregatePerCaseRow` pins it to the first point in the model's order, and `BusStopSelection.ChartFirstArrivalLeast` states only what any tie order gives.
- ArrivalTime.NearestTwo: on equal distances, the model takes the first minimal position. The source's `argsort` may take any of them.
- Row order inside an inner `merge` follows the left table. Where pandas could order differently, contracts state membership rather than order.
- `TransportDataExplorer.prepare_plots_stops_per_route`, `prepare_plots_track_transport` and `load_stops_info` are not modelled. They are plotting and CSV loading around `_preprocess_dataframe_for_vis`. `prepare_plots_track_transport` also needs `COLORS_PER_TRANSPORT` and `create_plot_with_stops_and_transport`, which `mostra/main.py` imports but `mostra/plots.py` does not define.
- `mostra/distances.py` (graph download and shortest path) is not modelled, and neither is the rest of the examples directory (plot scripts and a copy of the route selection).
- An exception other than the index, key, length-mismatch and empty-concatenation errors named in the model cannot arise from the modelled logic. Errors from pandas internals on malformed columns are not modelled.
