/**
 * `visualize_actual_arrival_time` (`examples/2_visualize_actual_arrival_bus_stop.py`)
 * on the table of actual arrivals: it looks for the (route direction, stop)
 * pair whose scheduled rows span the most cases, keeping the first such pair
 * in the order the table lists them, joins that pair's scheduled rows, by
 * forecast, with the stop table of its route, and optionally collapses them
 * to one row per case.
 */
module BusStopSelection {
  import opened Collections
  import opened Rows
  import opened ArrivalTime

  /** A (route direction, stop) pair with scheduled rows, and the number of cases they span. */
  datatype Candidate = Candidate(route: int, stop: int, cases: nat)

  /** A row of `stop_from_repo`. */
  datatype StopInfo = StopInfo(route: int, stop: int, transportType: string, number: string, name: string)

  /** A row of `df_for_visualization`: a scheduled row joined with a stop-table entry of its stop. */
  datatype Point = Point(row: ArrivalRow, info: StopInfo)

  /** What the chart is drawn from: the joined rows and the captions taken from the first of them. */
  datatype Chart = Chart(points: seq<Point>, transport: string, number: string, stopName: string)

  /** A row of the per-case aggregation: the first arrival and the total deviation over `size` rows. */
  datatype CaseRow = CaseRow(caseIndex: int, firstArrival: int, deviationSum: int, size: nat)

  function RouteColumn(rows: seq<ArrivalRow>): seq<int> {
    seq(|rows|, i requires 0 <= i < |rows| => rows[i].obs.route)
  }

  function StopColumn(rows: seq<ArrivalRow>): seq<int> {
    seq(|rows|, i requires 0 <= i < |rows| => rows[i].obs.stop)
  }

  function Cases(rows: seq<ArrivalRow>): seq<int> {
    seq(|rows|, i requires 0 <= i < |rows| => rows[i].caseIndex)
  }

  function OnArrivalRoute(p: int): ArrivalRow -> bool {
    (r: ArrivalRow) => r.obs.route == p
  }

  function AtArrivalStop(s: int): ArrivalRow -> bool {
    (r: ArrivalRow) => r.obs.stop == s
  }

  predicate ScheduledArrival(r: ArrivalRow) {
    !r.obs.byTelemetry
  }

  /** `schedule_data` of one pair. */
  function ScheduleData(actual: seq<ArrivalRow>, p: int, s: int): seq<ArrivalRow> {
    Filter(Filter(Filter(actual, OnArrivalRoute(p)), AtArrivalStop(s)), ScheduledArrival)
  }

  /** `len(schedule_data['case'].unique())`. */
  function CaseCount(rows: seq<ArrivalRow>): nat {
    |Distinct(Cases(rows))|
  }

  /** The candidate a stop of route `p` offers: none when it has no scheduled row. */
  function StopCandidate(actual: seq<ArrivalRow>, p: int): int -> seq<Candidate> {
    (s: int) =>
      var sd := ScheduleData(actual, p, s);
      if |sd| == 0 then [] else [Candidate(p, s, CaseCount(sd))]
  }

  /** The stops of route `p`, in order of first appearance. */
  function RouteStops(actual: seq<ArrivalRow>, p: int): seq<int> {
    Distinct(StopColumn(Filter(actual, OnArrivalRoute(p))))
  }

  function RouteCandidates(actual: seq<ArrivalRow>, p: int): seq<Candidate> {
    ConcatMap(RouteStops(actual, p), StopCandidate(actual, p))
  }

  function RouteCandidateStep(actual: seq<ArrivalRow>): int -> seq<Candidate> {
    (p: int) => RouteCandidates(actual, p)
  }

  /** Every candidate, in the order the two loops meet them. */
  function AllCandidates(actual: seq<ArrivalRow>): seq<Candidate> {
    ConcatMap(Distinct(RouteColumn(actual)), RouteCandidateStep(actual))
  }

  /** The candidate the loops keep: the first one, replaced only by a strictly larger case count. */
  function Best(cs: seq<Candidate>): Option<Candidate>
    decreases |cs|
  {
    if |cs| == 0 then None
    else
      var kept := Best(cs[..|cs| - 1]);
      var c := cs[|cs| - 1];
      if kept.None? || c.cases > kept.value.cases then Some(c) else kept
  }

  /** The pair shown, or nothing when no pair has scheduled rows. */
  function Chosen(actual: seq<ArrivalRow>): Option<Candidate> {
    Best(AllCandidates(actual))
  }

  lemma BestStep(cs: seq<Candidate>, ds: seq<Candidate>)
    requires |ds| <= 1
    ensures Best(cs + ds) ==
      if |ds| == 0 then Best(cs)
      else if Best(cs).None? || ds[0].cases > Best(cs).value.cases then Some(ds[0])
      else Best(cs)
  {
    if |ds| == 1 {
      assert (cs + ds)[..|cs + ds| - 1] == cs;
    } else {
      assert cs + ds == cs;
    }
  }

  /** One stop of the inner loop: its candidate replaces the kept one only with strictly more cases. */
  method ScanStop(actual: seq<ArrivalRow>, p: int, stop: int, kept: Option<Candidate>, ghost seen: seq<Candidate>)
    returns (best: Option<Candidate>)
    requires kept == Best(seen)
    ensures best == Best(seen + StopCandidate(actual, p)(stop))
  {
    BestStep(seen, StopCandidate(actual, p)(stop));
    best := kept;
    var scheduleData := ScheduleData(actual, p, stop);
    if |scheduleData| > 0 {
      var cases := CaseCount(scheduleData);
      if best.None? {
        best := Some(Candidate(p, stop, cases));
      } else if cases > best.value.cases {
        best := Some(Candidate(p, stop, cases));
      }
    }
  }

  /** The inner loop, over the stops of one route. */
  method ScanRoute(actual: seq<ArrivalRow>, p: int, kept: Option<Candidate>, ghost seen: seq<Candidate>)
    returns (best: Option<Candidate>)
    requires kept == Best(seen)
    ensures best == Best(seen + RouteCandidates(actual, p))
  {
    var stops := Distinct(StopColumn(Filter(actual, OnArrivalRoute(p))));
    ghost var step := StopCandidate(actual, p);
    best := kept;
    var j := 0;
    assert seen + ConcatMap(stops[..j], step) == seen;
    while j < |stops|
      invariant 0 <= j <= |stops|
      invariant best == Best(seen + ConcatMap(stops[..j], step))
    {
      ConcatMapStepAfter(seen, stops, step, j);
      best := ScanStop(actual, p, stops[j], best, seen + ConcatMap(stops[..j], step));
      j := j + 1;
    }
    assert stops[..j] == stops;
  }

  /** The selection loop of `visualize_actual_arrival_time`. */
  method SelectBusStop(actual: seq<ArrivalRow>) returns (best: Option<Candidate>)
    ensures best == Chosen(actual)
  {
    var routePathIds := Distinct(RouteColumn(actual));
    ghost var step := RouteCandidateStep(actual);
    best := None;
    var k := 0;
    while k < |routePathIds|
      invariant 0 <= k <= |routePathIds|
      invariant best == Best(ConcatMap(routePathIds[..k], step))
    {
      ConcatMapStep(routePathIds, step, k);
      best := ScanRoute(actual, routePathIds[k], best, ConcatMap(routePathIds[..k], step));
      k := k + 1;
    }
    assert routePathIds[..k] == routePathIds;
  }

  /**
   * The kept candidate has the largest case count, and every candidate met
   * before it has a strictly smaller one; nothing is kept only when there is
   * no candidate.
   */
  lemma BestIsFirstMaximum(cs: seq<Candidate>)
    ensures Best(cs).None? <==> |cs| == 0
    ensures Best(cs).Some? ==>
      exists i ::
        0 <= i < |cs| && cs[i] == Best(cs).value &&
        (forall j :: 0 <= j < |cs| ==> cs[j].cases <= cs[i].cases) &&
        (forall j :: 0 <= j < i ==> cs[j].cases < cs[i].cases)
  {
    if |cs| > 0 {
      var i := FirstMaximumIndex(cs);
    }
  }

  /** The position of the kept candidate. */
  lemma {:induction false} FirstMaximumIndex(cs: seq<Candidate>) returns (i: nat)
    requires |cs| > 0
    ensures i < |cs| && Best(cs) == Some(cs[i])
    ensures forall j :: 0 <= j < |cs| ==> cs[j].cases <= cs[i].cases
    ensures forall j :: 0 <= j < i ==> cs[j].cases < cs[i].cases
    decreases |cs|
  {
    var n := |cs| - 1;
    if n == 0 {
      return 0;
    }
    var init := cs[..n];
    var k := FirstMaximumIndex(init);
    assert forall j :: 0 <= j < n ==> cs[j] == init[j];
    if cs[n].cases > init[k].cases {
      i := n;
    } else {
      i := k;
    }
  }

  lemma InStopColumn(rows: seq<ArrivalRow>, s: int)
    ensures s in StopColumn(rows) <==> exists r :: r in rows && r.obs.stop == s
  {
    if s in StopColumn(rows) {
      var i :| 0 <= i < |rows| && StopColumn(rows)[i] == s;
      assert rows[i] in rows;
    }
    if exists r :: r in rows && r.obs.stop == s {
      var r :| r in rows && r.obs.stop == s;
      var i :| 0 <= i < |rows| && rows[i] == r;
      assert StopColumn(rows)[i] == s;
    }
  }

  lemma InRouteColumn(rows: seq<ArrivalRow>, p: int)
    ensures p in RouteColumn(rows) <==> exists r :: r in rows && r.obs.route == p
  {
    if p in RouteColumn(rows) {
      var i :| 0 <= i < |rows| && RouteColumn(rows)[i] == p;
      assert rows[i] in rows;
    }
    if exists r :: r in rows && r.obs.route == p {
      var r :| r in rows && r.obs.route == p;
      var i :| 0 <= i < |rows| && rows[i] == r;
      assert RouteColumn(rows)[i] == p;
    }
  }

  /** The candidates of route `p` are its stops with scheduled rows, each with its case count. */
  lemma InRouteCandidates(actual: seq<ArrivalRow>, p: int, c: Candidate)
    ensures c in RouteCandidates(actual, p) <==>
      c.route == p && |ScheduleData(actual, p, c.stop)| > 0 && c.cases == CaseCount(ScheduleData(actual, p, c.stop))
  {
    var stops := RouteStops(actual, p);
    var step := StopCandidate(actual, p);
    InConcatMap(stops, step, c);
    if c.route == p && |ScheduleData(actual, p, c.stop)| > 0 && c.cases == CaseCount(ScheduleData(actual, p, c.stop)) {
      var r := ScheduleData(actual, p, c.stop)[0];
      assert r in ScheduleData(actual, p, c.stop);
      InStopColumn(Filter(actual, OnArrivalRoute(p)), c.stop);
      var k :| 0 <= k < |stops| && stops[k] == c.stop;
      assert c in step(stops[k]);
    }
  }

  /**
   * The candidates are exactly the (route, stop) pairs with at least one
   * scheduled row, each with the number of cases those rows span.
   */
  lemma InAllCandidates(actual: seq<ArrivalRow>, c: Candidate)
    ensures c in AllCandidates(actual) <==>
      |ScheduleData(actual, c.route, c.stop)| > 0 && c.cases == CaseCount(ScheduleData(actual, c.route, c.stop))
  {
    var routes := Distinct(RouteColumn(actual));
    var step := RouteCandidateStep(actual);
    InConcatMap(routes, step, c);
    if c in AllCandidates(actual) {
      var k :| 0 <= k < |routes| && c in step(routes[k]);
      InRouteCandidates(actual, routes[k], c);
    }
    if |ScheduleData(actual, c.route, c.stop)| > 0 && c.cases == CaseCount(ScheduleData(actual, c.route, c.stop)) {
      var r := ScheduleData(actual, c.route, c.stop)[0];
      assert r in ScheduleData(actual, c.route, c.stop);
      InRouteColumn(actual, c.route);
      var k :| 0 <= k < |routes| && routes[k] == c.route;
      InRouteCandidates(actual, c.route, c);
    }
  }

  /** Nothing is chosen exactly when no row of the table is scheduled. */
  lemma ChosenNoneIff(actual: seq<ArrivalRow>)
    ensures Chosen(actual).None? <==> forall r :: r in actual ==> r.obs.byTelemetry
  {
    BestIsFirstMaximum(AllCandidates(actual));
    if exists r :: r in actual && !r.obs.byTelemetry {
      var r :| r in actual && !r.obs.byTelemetry;
      ScheduledPairIsCandidate(actual, r);
    }
    if |AllCandidates(actual)| > 0 {
      var c := AllCandidates(actual)[0];
      InAllCandidates(actual, c);
      var r := ScheduleData(actual, c.route, c.stop)[0];
      assert r in ScheduleData(actual, c.route, c.stop);
    }
  }

  lemma ScheduledPairIsCandidate(actual: seq<ArrivalRow>, r: ArrivalRow)
    requires r in actual && !r.obs.byTelemetry
    ensures Candidate(r.obs.route, r.obs.stop, CaseCount(ScheduleData(actual, r.obs.route, r.obs.stop))) in AllCandidates(actual)
  {
    assert r in ScheduleData(actual, r.obs.route, r.obs.stop);
    InAllCandidates(actual, Candidate(r.obs.route, r.obs.stop, CaseCount(ScheduleData(actual, r.obs.route, r.obs.stop))));
  }

  /**
   * The chosen pair has scheduled rows and spans at least as many cases as
   * every other pair with scheduled rows.
   */
  lemma ChosenHasMostCases(actual: seq<ArrivalRow>, c: Candidate)
    requires Chosen(actual) == Some(c)
    ensures |ScheduleData(actual, c.route, c.stop)| > 0 && c.cases == CaseCount(ScheduleData(actual, c.route, c.stop))
    ensures forall p, s :: |ScheduleData(actual, p, s)| > 0 ==> CaseCount(ScheduleData(actual, p, s)) <= c.cases
  {
    var cs := AllCandidates(actual);
    BestIsFirstMaximum(cs);
    InAllCandidates(actual, c);
    forall p, s | |ScheduleData(actual, p, s)| > 0 ensures CaseCount(ScheduleData(actual, p, s)) <= c.cases {
      var d := Candidate(p, s, CaseCount(ScheduleData(actual, p, s)));
      InAllCandidates(actual, d);
    }
  }

  predicate ArrivalByForecast(a: ArrivalRow, b: ArrivalRow) {
    a.obs.forecast <= b.obs.forecast
  }

  function InfoOnRoute(p: int): StopInfo -> bool {
    (e: StopInfo) => e.route == p
  }

  function InfoAtStop(s: int): StopInfo -> bool {
    (e: StopInfo) => e.stop == s
  }

  /** `stop_from_repo` cut down to route `p`, duplicates dropped. */
  function RouteRepo(repo: seq<StopInfo>, p: int): seq<StopInfo> {
    Distinct(Filter(repo, InfoOnRoute(p)))
  }

  /** The merge on `stop_id`: a row once per stop-table entry of its stop. */
  function JoinStop(entries: seq<StopInfo>): ArrivalRow -> seq<Point> {
    (r: ArrivalRow) =>
      var es := Filter(entries, InfoAtStop(r.obs.stop));
      seq(|es|, i requires 0 <= i < |es| => Point(r, es[i]))
  }

  /** The chosen pair's scheduled rows, sorted by forecast. */
  function ChosenRows(actual: seq<ArrivalRow>, c: Candidate): seq<ArrivalRow> {
    SortWith(ScheduleData(actual, c.route, c.stop), ArrivalByForecast)
  }

  /**
   * `df_for_visualization` with the captions read from its first row; the
   * `iloc[0]` raises when no pair was chosen or the stop table has no entry
   * for the chosen pair.
   */
  function ChartOf(actual: seq<ArrivalRow>, repo: seq<StopInfo>): Result<Chart> {
    match Chosen(actual)
    case None => Raised(IndexError)
    case Some(c) =>
      var points := ConcatMap(ChosenRows(actual, c), JoinStop(RouteRepo(repo, c.route)));
      if |points| == 0 then Raised(IndexError)
      else Ok(Chart(points, points[0].info.transportType, points[0].info.number, points[0].info.name))
  }

  /** `arrival_time - forecast_time`, in seconds. */
  function Deviation(pt: Point): int {
    pt.row.arrival - pt.row.obs.forecast
  }

  function PointCases(points: seq<Point>): seq<int> {
    seq(|points|, i requires 0 <= i < |points| => points[i].row.caseIndex)
  }

  function Deviations(points: seq<Point>): seq<int> {
    seq(|points|, i requires 0 <= i < |points| => Deviation(points[i]))
  }

  function PointInCase(c: int): Point -> bool {
    (pt: Point) => pt.row.caseIndex == c
  }

  /** `groupby('case')` with the first arrival and the deviations' sum and count per case, by ascending case. */
  function AggregatePerCase(points: seq<Point>): seq<CaseRow> {
    var keys := SortInts(Distinct(PointCases(points)));
    assert forall c :: c in keys ==> c in PointCases(points) by {
      forall c | c in keys ensures c in PointCases(points) {
        InSortedDistinct(PointCases(points), c);
      }
    }
    seq(|keys|, k requires 0 <= k < |keys| =>
      var members := Filter(points, PointInCase(keys[k]));
      CaseRowOf(keys[k], members, points))
  }

  function CaseRowOf(c: int, members: seq<Point>, points: seq<Point>): CaseRow
    requires c in PointCases(points) && members == Filter(points, PointInCase(c))
  {
    var i :| 0 <= i < |points| && PointCases(points)[i] == c;
    assert points[i] in members;
    CaseRow(c, members[0].row.arrival, Sum(Deviations(members)), |members|)
  }

  /** The body of `visualize_actual_arrival_time` up to the plots: the chart frame and, with `aggregate`, its per-case rows. */
  method VisualizeActualArrivalTime(actual: seq<ArrivalRow>, repo: seq<StopInfo>, aggregate: bool)
    returns (r: Result<Chart>, perCase: Option<seq<CaseRow>>)
    ensures r == ChartOf(actual, repo)
    ensures perCase == if r.Ok? && aggregate then Some(AggregatePerCase(r.value.points)) else None
  {
    perCase := None;
    var chosen := SelectBusStop(actual);
    if chosen.None? {
      return Raised(IndexError), None;
    }
    var scheduleData := ScheduleData(actual, chosen.value.route, chosen.value.stop);
    scheduleData := SortWith(scheduleData, ArrivalByForecast);
    var stopFromRepo := RouteRepo(repo, chosen.value.route);
    var points := ConcatMap(scheduleData, JoinStop(stopFromRepo));
    if |points| == 0 {
      return Raised(IndexError), None;
    }
    r := Ok(Chart(points, points[0].info.transportType, points[0].info.number, points[0].info.name));
    if aggregate {
      perCase := Some(AggregatePerCase(points));
    }
  }

  lemma InJoinStop(entries: seq<StopInfo>, r: ArrivalRow, pt: Point)
    ensures pt in JoinStop(entries)(r) <==> pt.row == r && pt.info in entries && pt.info.stop == r.obs.stop
  {
    var es := Filter(entries, InfoAtStop(r.obs.stop));
    if pt.row == r && pt.info in entries && pt.info.stop == r.obs.stop {
      var i :| 0 <= i < |es| && es[i] == pt.info;
      assert JoinStop(entries)(r)[i] == pt;
    }
  }

  /** The sorted rows of the chosen pair are its scheduled rows, by non-decreasing forecast. */
  lemma ChosenRowsSorted(actual: seq<ArrivalRow>, c: Candidate)
    ensures forall r :: r in ChosenRows(actual, c) <==>
      r in actual && r.obs.route == c.route && r.obs.stop == c.stop && !r.obs.byTelemetry
    ensures SortedWith(ChosenRows(actual, c), ArrivalByForecast)
  {
    var sd := ScheduleData(actual, c.route, c.stop);
    SortWithSorted(sd, ArrivalByForecast);
    forall r ensures r in ChosenRows(actual, c) <==> r in sd {
      InSortWith(sd, ArrivalByForecast, r);
      InScheduleData(actual, c.route, c.stop, r);
    }
  }

  lemma InScheduleData(actual: seq<ArrivalRow>, p: int, s: int, r: ArrivalRow)
    ensures r in ScheduleData(actual, p, s) <==> r in actual && r.obs.route == p && r.obs.stop == s && !r.obs.byTelemetry
  {
  }

  /**
   * The chart's rows pair each scheduled row of the chosen pair with each
   * stop-table entry of that route and stop.
   */
  lemma ChartPoints(actual: seq<ArrivalRow>, repo: seq<StopInfo>, c: Candidate, pt: Point)
    requires Chosen(actual) == Some(c) && ChartOf(actual, repo).Ok?
    ensures pt in ChartOf(actual, repo).value.points <==>
      pt.row in actual && pt.row.obs.route == c.route && pt.row.obs.stop == c.stop && !pt.row.obs.byTelemetry &&
      pt.info in repo && pt.info.route == c.route && pt.info.stop == c.stop
  {
    var rows := ChosenRows(actual, c);
    var join := JoinStop(RouteRepo(repo, c.route));
    InConcatMap(rows, join, pt);
    ChosenRowsSorted(actual, c);
    if pt in ConcatMap(rows, join) {
      var k :| 0 <= k < |rows| && pt in join(rows[k]);
      InJoinStop(RouteRepo(repo, c.route), rows[k], pt);
    }
    InJoinStop(RouteRepo(repo, c.route), pt.row, pt);
  }

  /**
   * The chart raises `IndexError` exactly when no row is scheduled, or the
   * stop table has no entry for the chosen route and stop.
   */
  lemma ChartRaisesIff(actual: seq<ArrivalRow>, repo: seq<StopInfo>)
    ensures ChartOf(actual, repo).Raised? ==> ChartOf(actual, repo).error == IndexError
    ensures ChartOf(actual, repo).Raised? <==>
      Chosen(actual).None? ||
      forall e :: e in repo ==> e.route != Chosen(actual).value.route || e.stop != Chosen(actual).value.stop
  {
    if Chosen(actual).Some? {
      var c := Chosen(actual).value;
      ChosenHasMostCases(actual, c);
      if exists e :: e in repo && e.route == c.route && e.stop == c.stop {
        var e :| e in repo && e.route == c.route && e.stop == c.stop;
        JoinedWithEntry(actual, repo, c, e);
      } else {
        JoinedWithoutEntry(actual, repo, c);
      }
    }
  }

  /** A stop-table entry for the chosen pair gives its first scheduled row a joined row. */
  lemma JoinedWithEntry(actual: seq<ArrivalRow>, repo: seq<StopInfo>, c: Candidate, e: StopInfo)
    requires |ScheduleData(actual, c.route, c.stop)| > 0
    requires e in repo && e.route == c.route && e.stop == c.stop
    ensures |ConcatMap(ChosenRows(actual, c), JoinStop(RouteRepo(repo, c.route)))| > 0
  {
    var rows := ChosenRows(actual, c);
    var join := JoinStop(RouteRepo(repo, c.route));
    ChosenRowsSorted(actual, c);
    var r0 := ScheduleData(actual, c.route, c.stop)[0];
    assert r0 in ScheduleData(actual, c.route, c.stop);
    InScheduleData(actual, c.route, c.stop, r0);
    InJoinStop(RouteRepo(repo, c.route), r0, Point(r0, e));
    InConcatMap(rows, join, Point(r0, e));
    var k :| 0 <= k < |rows| && rows[k] == r0;
  }

  /** Without a stop-table entry for the chosen pair, nothing is joined. */
  lemma JoinedWithoutEntry(actual: seq<ArrivalRow>, repo: seq<StopInfo>, c: Candidate)
    requires forall e :: e in repo ==> e.route != c.route || e.stop != c.stop
    ensures |ConcatMap(ChosenRows(actual, c), JoinStop(RouteRepo(repo, c.route)))| == 0
  {
    var rows := ChosenRows(actual, c);
    var join := JoinStop(RouteRepo(repo, c.route));
    if |ConcatMap(rows, join)| > 0 {
      var pt := ConcatMap(rows, join)[0];
      InConcatMap(rows, join, pt);
      var k :| 0 <= k < |rows| && pt in join(rows[k]);
      ChosenRowsSorted(actual, c);
      InJoinStop(RouteRepo(repo, c.route), rows[k], pt);
    }
  }

  /** The per-case rows: one per case of the chart, by strictly ascending case. */
  lemma AggregatePerCaseKeys(points: seq<Point>)
    ensures |AggregatePerCase(points)| == |Distinct(PointCases(points))|
    ensures forall k :: 0 <= k < |AggregatePerCase(points)| ==> AggregatePerCase(points)[k].caseIndex in PointCases(points)
    ensures forall c :: c in PointCases(points) ==>
      exists k :: 0 <= k < |AggregatePerCase(points)| && AggregatePerCase(points)[k].caseIndex == c
    ensures forall k, l :: 0 <= k < l < |AggregatePerCase(points)| ==>
      AggregatePerCase(points)[k].caseIndex < AggregatePerCase(points)[l].caseIndex
  {
    var keys := SortInts(Distinct(PointCases(points)));
    var r := AggregatePerCase(points);
    AggregateCaseIndices(points);
    SortedDistinctAscending(PointCases(points));
    forall c ensures c in keys <==> c in PointCases(points) {
      InSortedDistinct(PointCases(points), c);
    }
    forall c | c in PointCases(points)
      ensures exists k :: 0 <= k < |r| && r[k].caseIndex == c
    {
      var k :| 0 <= k < |keys| && keys[k] == c;
      assert r[k].caseIndex == c;
    }
  }

  /** The per-case rows follow the sorted distinct cases. */
  lemma AggregateCaseIndices(points: seq<Point>)
    ensures |AggregatePerCase(points)| == |SortInts(Distinct(PointCases(points)))|
    ensures forall k :: 0 <= k < |AggregatePerCase(points)| ==>
      AggregatePerCase(points)[k].caseIndex == SortInts(Distinct(PointCases(points)))[k]
  {
  }

  /**
   * The row of one case counts that case's chart rows, takes the arrival of
   * the first of them, and its total deviation lies between the count times
   * the smallest and the largest deviation.
   */
  lemma AggregatePerCaseRow(points: seq<Point>, k: int)
    requires 0 <= k < |AggregatePerCase(points)|
    ensures var row := AggregatePerCase(points)[k];
      var members := Filter(points, PointInCase(row.caseIndex));
      && row.size == |members| > 0
      && (exists i ::
            0 <= i < |points| && points[i].row.caseIndex == row.caseIndex &&
            row.firstArrival == points[i].row.arrival &&
            forall j :: 0 <= j < i ==> points[j].row.caseIndex != row.caseIndex)
      && row.size * Min(Deviations(members)) <= row.deviationSum <= row.size * Max(Deviations(members))
  {
    var row := AggregatePerCase(points)[k];
    var keys := SortInts(Distinct(PointCases(points)));
    assert row.caseIndex == keys[k];
    InSortedDistinct(PointCases(points), keys[k]);
    InPointCases(points, keys[k]);
    var members := Filter(points, PointInCase(row.caseIndex));
    var pt :| pt in points && pt.row.caseIndex == keys[k];
    assert pt in members;
    FilterFirst(points, PointInCase(row.caseIndex));
    var devs := Deviations(members);
    forall x | x in devs ensures Min(devs) <= x <= Max(devs) {
    }
    SumBounds(devs, Min(devs), Max(devs));
  }

  predicate PointByForecast(a: Point, b: Point) {
    a.row.obs.forecast <= b.row.obs.forecast
  }

  /**
   * Whatever order the sort gives to rows with equal forecasts, the arrival
   * kept for a case is that of one of its points with the least forecast.
   */
  lemma ChartFirstArrivalLeast(actual: seq<ArrivalRow>, repo: seq<StopInfo>, k: int)
    requires ChartOf(actual, repo).Ok?
    requires 0 <= k < |AggregatePerCase(ChartOf(actual, repo).value.points)|
    ensures var points := ChartOf(actual, repo).value.points;
      var row := AggregatePerCase(points)[k];
      exists pt :: pt in points && pt.row.caseIndex == row.caseIndex && row.firstArrival == pt.row.arrival &&
        forall q :: q in points && q.row.caseIndex == row.caseIndex ==> pt.row.obs.forecast <= q.row.obs.forecast
  {
    ChartPointsSorted(actual, repo);
    AggregateFirstArrivalLeast(ChartOf(actual, repo).value.points, k);
  }

  /** The chart's rows are in non-decreasing forecast order. */
  lemma ChartPointsSorted(actual: seq<ArrivalRow>, repo: seq<StopInfo>)
    requires ChartOf(actual, repo).Ok?
    ensures SortedWith(ChartOf(actual, repo).value.points, PointByForecast)
  {
    var c := Chosen(actual).value;
    ChosenRowsSorted(actual, c);
    JoinedSorted(ChosenRows(actual, c), RouteRepo(repo, c.route));
  }

  /** Joining forecast-sorted rows with stop-table entries keeps them sorted. */
  lemma {:induction false} JoinedSorted(rows: seq<ArrivalRow>, entries: seq<StopInfo>)
    requires SortedWith(rows, ArrivalByForecast)
    ensures SortedWith(ConcatMap(rows, JoinStop(entries)), PointByForecast)
    decreases |rows|
  {
    if |rows| > 0 {
      var join := JoinStop(entries);
      var init := rows[..|rows| - 1];
      var last := rows[|rows| - 1];
      JoinedSorted(init, entries);
      var pre := ConcatMap(init, join);
      var pts := ConcatMap(rows, join);
      assert pts == pre + join(last);
      forall a, b | 0 <= a < b < |pts| ensures PointByForecast(pts[a], pts[b]) {
        if b < |pre| {
          assert pts[a] == pre[a] && pts[b] == pre[b];
        } else {
          InJoinStop(entries, last, pts[b]);
          if a < |pre| {
            InConcatMap(init, join, pre[a]);
            var m :| 0 <= m < |init| && pre[a] in join(init[m]);
            InJoinStop(entries, init[m], pre[a]);
            assert init[m] == rows[m];
          } else {
            InJoinStop(entries, last, pts[a]);
          }
        }
      }
    }
  }

  /** Over forecast-sorted rows, the first point of a case has the case's least forecast. */
  lemma AggregateFirstArrivalLeast(points: seq<Point>, k: int)
    requires SortedWith(points, PointByForecast)
    requires 0 <= k < |AggregatePerCase(points)|
    ensures var row := AggregatePerCase(points)[k];
      exists pt :: pt in points && pt.row.caseIndex == row.caseIndex && row.firstArrival == pt.row.arrival &&
        forall q :: q in points && q.row.caseIndex == row.caseIndex ==> pt.row.obs.forecast <= q.row.obs.forecast
  {
    var row := AggregatePerCase(points)[k];
    AggregatePerCaseRow(points, k);
    var i :| 0 <= i < |points| && points[i].row.caseIndex == row.caseIndex &&
      row.firstArrival == points[i].row.arrival &&
      forall j :: 0 <= j < i ==> points[j].row.caseIndex != row.caseIndex;
    forall q | q in points && q.row.caseIndex == row.caseIndex
      ensures points[i].row.obs.forecast <= q.row.obs.forecast
    {
      var j :| 0 <= j < |points| && points[j] == q;
      if i < j {
        assert PointByForecast(points[i], points[j]);
      }
    }
    assert points[i] in points;
  }

  lemma InPointCases(points: seq<Point>, c: int)
    ensures c in PointCases(points) <==> exists pt :: pt in points && pt.row.caseIndex == c
  {
    if c in PointCases(points) {
      var i :| 0 <= i < |points| && PointCases(points)[i] == c;
      assert points[i] in points;
    }
    if exists pt :: pt in points && pt.row.caseIndex == c {
      var pt :| pt in points && pt.row.caseIndex == c;
      var i :| 0 <= i < |points| && points[i] == pt;
      assert PointCases(points)[i] == c;
    }
  }

  lemma InCases(rows: seq<ArrivalRow>, c: int)
    ensures c in Cases(rows) <==> exists r :: r in rows && r.caseIndex == c
  {
    if c in Cases(rows) {
      var i :| 0 <= i < |rows| && Cases(rows)[i] == c;
      assert rows[i] in rows;
    }
    if exists r :: r in rows && r.caseIndex == c {
      var r :| r in rows && r.caseIndex == c;
      var i :| 0 <= i < |rows| && rows[i] == r;
      assert Cases(rows)[i] == c;
    }
  }

  /** With `aggregate`, the chart has exactly one row per case of the chosen pair. */
  lemma AggregatedOnePerCase(actual: seq<ArrivalRow>, repo: seq<StopInfo>)
    requires ChartOf(actual, repo).Ok?
    ensures Chosen(actual).Some?
    ensures |AggregatePerCase(ChartOf(actual, repo).value.points)| == Chosen(actual).value.cases
  {
    var c := Chosen(actual).value;
    var points := ChartOf(actual, repo).value.points;
    var sd := ScheduleData(actual, c.route, c.stop);
    ChosenHasMostCases(actual, c);
    ChartCases(actual, repo, c);
    DistinctCard(PointCases(points));
    DistinctCard(Cases(sd));
    AggregatePerCaseKeys(points);
  }

  /** The chart spans the same cases as the chosen pair's scheduled rows. */
  lemma ChartCases(actual: seq<ArrivalRow>, repo: seq<StopInfo>, c: Candidate)
    requires Chosen(actual) == Some(c) && ChartOf(actual, repo).Ok?
    ensures Elements(PointCases(ChartOf(actual, repo).value.points)) == Elements(Cases(ScheduleData(actual, c.route, c.stop)))
  {
    var points := ChartOf(actual, repo).value.points;
    var sd := ScheduleData(actual, c.route, c.stop);
    ChartRaisesIff(actual, repo);
    var e :| e in repo && e.route == c.route && e.stop == c.stop;
    ChartRowsScheduled(actual, repo, c);
    ChartCoversScheduled(actual, repo, c, e);
    SameCases(points, sd, e);
  }

  lemma ChartRowsScheduled(actual: seq<ArrivalRow>, repo: seq<StopInfo>, c: Candidate)
    requires Chosen(actual) == Some(c) && ChartOf(actual, repo).Ok?
    ensures forall pt :: pt in ChartOf(actual, repo).value.points ==> pt.row in ScheduleData(actual, c.route, c.stop)
  {
    forall pt | pt in ChartOf(actual, repo).value.points ensures pt.row in ScheduleData(actual, c.route, c.stop) {
      ChartPoints(actual, repo, c, pt);
      InScheduleData(actual, c.route, c.stop, pt.row);
    }
  }

  lemma ChartCoversScheduled(actual: seq<ArrivalRow>, repo: seq<StopInfo>, c: Candidate, e: StopInfo)
    requires Chosen(actual) == Some(c) && ChartOf(actual, repo).Ok?
    requires e in repo && e.route == c.route && e.stop == c.stop
    ensures forall r :: r in ScheduleData(actual, c.route, c.stop) ==> Point(r, e) in ChartOf(actual, repo).value.points
  {
    forall r | r in ScheduleData(actual, c.route, c.stop) ensures Point(r, e) in ChartOf(actual, repo).value.points {
      ChartPoints(actual, repo, c, Point(r, e));
      InScheduleData(actual, c.route, c.stop, r);
    }
  }

  lemma SameCases(points: seq<Point>, rows: seq<ArrivalRow>, e: StopInfo)
    requires forall pt :: pt in points ==> pt.row in rows
    requires forall r :: r in rows ==> Point(r, e) in points
    ensures Elements(PointCases(points)) == Elements(Cases(rows))
  {
    forall x | x in PointCases(points) ensures x in Cases(rows) {
      InPointCases(points, x);
      InCases(rows, x);
    }
    forall x | x in Cases(rows) ensures x in PointCases(points) {
      InCases(rows, x);
      var r :| r in rows && r.caseIndex == x;
      InPointCases(points, x);
      assert Point(r, e) in points;
    }
  }
}
