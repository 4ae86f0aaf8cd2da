/**
 * `aggregate_schedule_items`: for every (route direction, stop, vehicle)
 * group, the telemetry rows pass through without their `id` column, and the
 * scheduled rows are split into cases by the ten-minute rule and collapsed
 * into one row per case holding the case means. Route directions are visited
 * in ascending order, stops and vehicles in order of first appearance; the
 * vehicle `tmId == 0` is not excluded here.
 *
 * A mean is kept as its sum and its row count: the row stands for the
 * floating-point value `forecastSum / size` (and `requestSum / size`).
 */
module Preprocessing {
  import opened Collections
  import opened Rows
  import opened Segmentation

  /** A row of the aggregated table. */
  datatype Emitted =
    | Telemetry(obs: Observation)   // a telemetry row with `id` dropped
    | Raw(row: RawRow)              // a scheduled row of a one-row group, as loaded
    | CaseMean(stop: int, route: int, vehicle: int, size: nat, forecastSum: int, requestSum: int)

  /** `transport_df`: the rows of one route direction, stop and vehicle. */
  function GroupRows(df: seq<RawRow>, p: int, s: int, t: int): seq<RawRow> {
    Filter(StopRows(df, p, s), OfVehicle(t))
  }

  /** `stop_df`. */
  function StopRows(df: seq<RawRow>, p: int, s: int): seq<RawRow> {
    Filter(Filter(df, OnRoute(p)), AtStop(s))
  }

  /** `transponder_data` after dropping `id`. */
  function TelemetryFrame(group: seq<RawRow>): (r: seq<Emitted>)
    ensures forall e :: e in r ==> e.Telemetry?
    ensures forall o :: Telemetry(o) in r <==> exists x :: x in group && RawTelemetry(x) && x.obs == o
  {
    var tel := Filter(group, RawTelemetry);
    var r := seq(|tel|, i requires 0 <= i < |tel| => Telemetry(tel[i].obs));
    assert forall x :: x in tel ==> Telemetry(x.obs) in r by {
      forall x | x in tel ensures Telemetry(x.obs) in r {
        var i :| 0 <= i < |tel| && tel[i] == x;
        assert r[i] == Telemetry(x.obs);
      }
    }
    r
  }

  /** `scheduled_data` as loaded, `id` included. */
  function ScheduledFrame(group: seq<RawRow>): (r: seq<Emitted>)
    ensures forall e :: e in r ==> e.Raw?
    ensures forall x :: Raw(x) in r <==> x in group && RawScheduled(x)
  {
    var sched := Filter(group, RawScheduled);
    var r := seq(|sched|, i requires 0 <= i < |sched| => Raw(sched[i]));
    assert forall x :: x in sched ==> Raw(x) in r by {
      forall x | x in sched ensures Raw(x) in r {
        var i :| 0 <= i < |sched| && sched[i] == x;
        assert r[i] == Raw(x);
      }
    }
    r
  }

  /** `scheduled_data.sort_values(by='forecast_time')`. */
  function SortedScheduled(group: seq<RawRow>): seq<RawRow> {
    SortWith(Filter(group, RawScheduled), RawByForecast)
  }

  function RowForecasts(rows: seq<RawRow>): seq<int> {
    Forecasts(DropId(rows))
  }

  function RowRequests(rows: seq<RawRow>): seq<int> {
    RequestTimes(DropId(rows))
  }

  /** The rows labelled with case `c`, in order. */
  function Members(rows: seq<RawRow>, cases: seq<int>, c: int): (m: seq<RawRow>)
    requires |rows| == |cases|
    ensures |m| <= |rows|
    ensures forall x :: x in m ==> x in rows
    decreases |rows|
  {
    if |rows| == 0 then []
    else (if cases[0] == c then [rows[0]] else []) + Members(rows[1..], cases[1..], c)
  }

  lemma {:induction false} MembersNonEmpty(rows: seq<RawRow>, cases: seq<int>, c: int)
    requires |rows| == |cases| && c in cases
    ensures |Members(rows, cases, c)| > 0
    decreases |rows|
  {
    if cases[0] != c {
      assert c in cases[1..];
      MembersNonEmpty(rows[1..], cases[1..], c);
    }
  }

  /** The `groupby('case').agg(...)` row of one case: identifiers of its first row, sums for the means. */
  function Summary(m: seq<RawRow>): Emitted
    requires |m| > 0
  {
    CaseMean(m[0].obs.stop, m[0].obs.route, m[0].obs.vehicle, |m|, Sum(RowForecasts(m)), Sum(RowRequests(m)))
  }

  function CaseSummary(rows: seq<RawRow>, cases: seq<int>, c: int): Emitted
    requires |rows| == |cases| && c in cases
  {
    MembersNonEmpty(rows, cases, c);
    Summary(Members(rows, cases, c))
  }

  /** `groupby('case')`: one row per distinct case label, in ascending label order. */
  function Aggregate(rows: seq<RawRow>, cases: seq<int>): (r: seq<Emitted>)
    requires |rows| == |cases|
    ensures forall e :: e in r ==> e.CaseMean?
  {
    var keys := SortInts(Distinct(cases));
    assert forall x :: x in keys ==> x in multiset(Distinct(cases));
    assert forall x :: x in keys ==> x in cases;
    seq(|keys|, k requires 0 <= k < |keys| => CaseSummary(rows, cases, keys[k]))
  }

  /** The frames one group appends to `final_df`. */
  function GroupEmission(group: seq<RawRow>): (r: seq<seq<Emitted>>)
    ensures |r| > 0 <==> |Filter(group, RawScheduled)| > 0
  {
    var sched := Filter(group, RawScheduled);
    if |sched| < 1 then []
    else
      var sorted := SortedScheduled(group);
      var aggregated := [TelemetryFrame(group), Aggregate(sorted, CaseIndices(RowForecasts(sorted)))];
      if |sched| == 1 then [TelemetryFrame(group), ScheduledFrame(group)] + aggregated else aggregated
  }

  function VehicleStep(df: seq<RawRow>, p: int, s: int): int -> seq<seq<Emitted>> {
    (t: int) => GroupEmission(GroupRows(df, p, s, t))
  }

  /** The frames of one stop of one route direction, vehicle by vehicle. */
  function StopFrames(df: seq<RawRow>, p: int, s: int): seq<seq<Emitted>> {
    ConcatMap(Distinct(Vehicles(StopRows(df, p, s))), VehicleStep(df, p, s))
  }

  function StopStep(df: seq<RawRow>, p: int): int -> seq<seq<Emitted>> {
    (s: int) => StopFrames(df, p, s)
  }

  /** The frames of one route direction, stop by stop. */
  function PathFrames(df: seq<RawRow>, p: int): seq<seq<Emitted>> {
    ConcatMap(Distinct(Stops(Filter(df, OnRoute(p)))), StopStep(df, p))
  }

  function PathStep(df: seq<RawRow>): int -> seq<seq<Emitted>> {
    (p: int) => PathFrames(df, p)
  }

  /** `final_df` before concatenation. */
  function EmittedFrames(df: seq<RawRow>): seq<seq<Emitted>> {
    ConcatMap(SortInts(Distinct(Routes(df))), PathStep(df))
  }

  /** The table `aggregate_schedule_items` returns; `pd.concat([])` raises. */
  function AggregatedTable(df: seq<RawRow>): Result<seq<Emitted>> {
    var frames := EmittedFrames(df);
    if |frames| == 0 then Raised(NothingToConcatenate) else Ok(Concat(frames))
  }

  /** The body of the vehicle loop. */
  method ProcessTransport(transportDf: seq<RawRow>) returns (frames: seq<seq<Emitted>>)
    ensures frames == GroupEmission(transportDf)
  {
    var transponderData := TelemetryFrame(transportDf);
    var scheduledData := Filter(transportDf, RawScheduled);
    frames := [];
    if |scheduledData| < 1 {
      return;
    } else if |scheduledData| == 1 {
      frames := frames + [transponderData, ScheduledFrame(transportDf)];
    }
    var sorted := SortWith(scheduledData, RawByForecast);
    var timeBatches := Segment(DropId(sorted));
    frames := frames + [transponderData, Aggregate(sorted, timeBatches)];
  }

  /** The vehicle loop of one stop. */
  method ProcessStop(df: seq<RawRow>, p: int, s: int) returns (frames: seq<seq<Emitted>>)
    ensures frames == StopFrames(df, p, s)
  {
    var stopDf := Filter(Filter(df, OnRoute(p)), AtStop(s));
    var transportIds := Distinct(Vehicles(stopDf));
    frames := [];
    var k := 0;
    while k < |transportIds|
      invariant 0 <= k <= |transportIds|
      invariant frames == ConcatMap(transportIds[..k], VehicleStep(df, p, s))
    {
      ConcatMapStep(transportIds, VehicleStep(df, p, s), k);
      var found := ProcessTransport(Filter(stopDf, OfVehicle(transportIds[k])));
      frames := frames + found;
      k := k + 1;
    }
    assert transportIds[..|transportIds|] == transportIds;
  }

  /** The stop loop of one route direction. */
  method ProcessPath(df: seq<RawRow>, p: int) returns (frames: seq<seq<Emitted>>)
    ensures frames == PathFrames(df, p)
  {
    var routePathDf := Filter(df, OnRoute(p));
    var stopsList := Distinct(Stops(routePathDf));
    frames := [];
    var k := 0;
    while k < |stopsList|
      invariant 0 <= k <= |stopsList|
      invariant frames == ConcatMap(stopsList[..k], StopStep(df, p))
    {
      ConcatMapStep(stopsList, StopStep(df, p), k);
      var found := ProcessStop(df, p, stopsList[k]);
      frames := frames + found;
      k := k + 1;
    }
    assert stopsList[..|stopsList|] == stopsList;
  }

  method AggregateScheduleItems(df: seq<RawRow>) returns (r: Result<seq<Emitted>>)
    ensures r == AggregatedTable(df)
  {
    var routePathIds := SortInts(Distinct(Routes(df)));
    var finalDf: seq<seq<Emitted>> := [];
    var i := 0;
    while i < |routePathIds|
      invariant 0 <= i <= |routePathIds|
      invariant finalDf == ConcatMap(routePathIds[..i], PathStep(df))
    {
      ConcatMapStep(routePathIds, PathStep(df), i);
      var found := ProcessPath(df, routePathIds[i]);
      finalDf := finalDf + found;
      i := i + 1;
    }
    assert routePathIds[..|routePathIds|] == routePathIds;
    if |finalDf| == 0 {
      return Raised(NothingToConcatenate);
    }
    return Ok(Concat(finalDf));
  }

  /** A row carries case `c` exactly when it sits at a position labelled `c`. */
  lemma {:induction false} InMembers(rows: seq<RawRow>, cases: seq<int>, c: int, x: RawRow)
    requires |rows| == |cases|
    ensures x in Members(rows, cases, c) <==> exists i :: 0 <= i < |rows| && rows[i] == x && cases[i] == c
    decreases |rows|
  {
    if |rows| > 0 {
      InMembers(rows[1..], cases[1..], c, x);
      if exists i :: 0 <= i < |rows| && rows[i] == x && cases[i] == c {
        var i :| 0 <= i < |rows| && rows[i] == x && cases[i] == c;
        if i > 0 {
          assert rows[1..][i - 1] == x && cases[1..][i - 1] == c;
        }
      }
      if x in Members(rows[1..], cases[1..], c) {
        var i :| 0 <= i < |rows[1..]| && rows[1..][i] == x && cases[1..][i] == c;
        assert rows[i + 1] == x && cases[i + 1] == c;
      }
    }
  }

  /**
   * The aggregation emits one row per case: one more than the number of
   * consecutive forecasts at least ten minutes apart.
   */
  lemma AggregateCount(rows: seq<RawRow>)
    requires |rows| > 0
    ensures |Aggregate(rows, CaseIndices(RowForecasts(rows)))| == 1 + GapCount(RowForecasts(rows))
  {
    var f := RowForecasts(rows);
    var c := CaseIndices(f);
    CaseIndicesStepwise(f);
    SortedDistinctStepwise(c);
    LastCaseIsGapCount(f);
  }

  /**
   * Each aggregated row stands for a non-empty case; its mean forecast and
   * mean request times lie between the smallest and the largest of the case.
   */
  lemma AggregateMeans(rows: seq<RawRow>, cases: seq<int>, k: int)
    requires |rows| == |cases| && 0 <= k < |Aggregate(rows, cases)|
    ensures
      var e := Aggregate(rows, cases)[k];
      var m := Members(rows, cases, SortInts(Distinct(cases))[k]);
      && e.size == |m| > 0
      && e.size * Min(RowForecasts(m)) <= e.forecastSum <= e.size * Max(RowForecasts(m))
      && e.size * Min(RowRequests(m)) <= e.requestSum <= e.size * Max(RowRequests(m))
  {
    var keys := SortInts(Distinct(cases));
    assert keys[k] in multiset(Distinct(cases));
    MembersNonEmpty(rows, cases, keys[k]);
    var m := Members(rows, cases, keys[k]);
    var f := RowForecasts(m);
    var q := RowRequests(m);
    SumBounds(f, Min(f), Max(f));
    SumBounds(q, Min(q), Max(q));
  }

  /** Aggregated rows of a group carry the group's route direction, stop and vehicle. */
  lemma AggregateKeys(rows: seq<RawRow>, cases: seq<int>, p: int, s: int, t: int)
    requires |rows| == |cases|
    requires forall x :: x in rows ==> x.obs.route == p && x.obs.stop == s && x.obs.vehicle == t
    ensures forall e :: e in Aggregate(rows, cases) ==> e.route == p && e.stop == s && e.vehicle == t
  {
    var keys := SortInts(Distinct(cases));
    forall e | e in Aggregate(rows, cases) ensures e.route == p && e.stop == s && e.vehicle == t {
      var k :| 0 <= k < |keys| && Aggregate(rows, cases)[k] == e;
      InSortedDistinct(cases, keys[k]);
      CaseSummaryKeys(rows, cases, keys[k], p, s, t);
    }
  }

  lemma CaseSummaryKeys(rows: seq<RawRow>, cases: seq<int>, c: int, p: int, s: int, t: int)
    requires |rows| == |cases| && c in cases
    requires forall x :: x in rows ==> x.obs.route == p && x.obs.stop == s && x.obs.vehicle == t
    ensures CaseSummary(rows, cases, c).route == p
    ensures CaseSummary(rows, cases, c).stop == s
    ensures CaseSummary(rows, cases, c).vehicle == t
  {
    MembersNonEmpty(rows, cases, c);
    assert Members(rows, cases, c)[0] in rows;
  }

  /**
   * A group with exactly one scheduled row emits its telemetry twice and the
   * scheduled row twice: once as loaded and once as a one-row case.
   */
  lemma SingleScheduledEmittedTwice(group: seq<RawRow>)
    requires |Filter(group, RawScheduled)| == 1
    ensures
      var x := Filter(group, RawScheduled)[0];
      GroupEmission(group) == [
        TelemetryFrame(group), [Raw(x)],
        TelemetryFrame(group), [CaseMean(x.obs.stop, x.obs.route, x.obs.vehicle, 1, x.obs.forecast, x.obs.request)]]
  {
    SingleScheduledParts(group);
    AggregateSingle(Filter(group, RawScheduled)[0]);
  }

  /** With one scheduled row, both the loaded and the sorted frames are that row alone. */
  lemma SingleScheduledParts(group: seq<RawRow>)
    requires |Filter(group, RawScheduled)| == 1
    ensures SortedScheduled(group) == [Filter(group, RawScheduled)[0]]
    ensures ScheduledFrame(group) == [Raw(Filter(group, RawScheduled)[0])]
  {
    var x := Filter(group, RawScheduled)[0];
    var sorted := SortedScheduled(group);
    assert multiset(sorted) == multiset([x]);
    assert sorted[0] in multiset([x]);
    assert |ScheduledFrame(group)| == 1;
  }

  lemma AggregateSingle(x: RawRow)
    ensures Aggregate([x], CaseIndices(RowForecasts([x]))) ==
      [CaseMean(x.obs.stop, x.obs.route, x.obs.vehicle, 1, x.obs.forecast, x.obs.request)]
  {
    var cases := CaseIndices(RowForecasts([x]));
    assert cases == [0];
    SingleCaseKeys();
    AggregateOneKey([x], cases);
    SummaryOfOneRow(x);
  }

  lemma SingleCaseKeys()
    ensures SortInts(Distinct([0])) == [0]
  {
    assert Distinct([0]) == Distinct([0][..0]) + [0];
    assert SortInts([0])[0] in multiset([0]);
  }

  lemma AggregateOneKey(rows: seq<RawRow>, cases: seq<int>)
    requires |rows| == |cases| && 0 in cases && SortInts(Distinct(cases)) == [0]
    ensures Aggregate(rows, cases) == [CaseSummary(rows, cases, 0)]
  {
  }

  lemma SummaryOfOneRow(x: RawRow)
    ensures CaseSummary([x], [0], 0) == CaseMean(x.obs.stop, x.obs.route, x.obs.vehicle, 1, x.obs.forecast, x.obs.request)
  {
    assert Members([x], [0], 0) == [x];
    assert RowForecasts([x]) == [x.obs.forecast];
    assert RowRequests([x]) == [x.obs.request];
    assert Sum([x.obs.forecast]) == x.obs.forecast;
    assert Sum([x.obs.request]) == x.obs.request;
  }

  /** The telemetry rows a group emits are its own, and only when it has a scheduled row. */
  lemma GroupTelemetry(group: seq<RawRow>, o: Observation)
    ensures (exists fr :: fr in GroupEmission(group) && Telemetry(o) in fr) <==>
      |Filter(group, RawScheduled)| > 0 && exists x :: x in group && RawTelemetry(x) && x.obs == o
  {
    EmissionFrames(group);
  }

  /** A group emits its telemetry frame, when it has a scheduled row, and otherwise only frames without telemetry. */
  lemma EmissionFrames(group: seq<RawRow>)
    ensures |Filter(group, RawScheduled)| > 0 ==> TelemetryFrame(group) in GroupEmission(group)
    ensures forall fr :: fr in GroupEmission(group) ==>
      fr == TelemetryFrame(group) || forall e :: e in fr ==> !e.Telemetry?
  {
    var sched := Filter(group, RawScheduled);
    if |sched| > 0 {
      var sorted := SortedScheduled(group);
      var agg := Aggregate(sorted, CaseIndices(RowForecasts(sorted)));
      var tf := TelemetryFrame(group);
      if |sched| == 1 {
        assert GroupEmission(group) == [tf, ScheduledFrame(group), tf, agg];
      } else {
        assert GroupEmission(group) == [tf, agg];
      }
    }
  }

  /** Every row of the input is in the group of its route direction, stop and vehicle, and that group is visited. */
  lemma GroupVisited(df: seq<RawRow>, x: RawRow)
    requires x in df
    ensures x.obs.route in SortInts(Distinct(Routes(df)))
    ensures x.obs.stop in Distinct(Stops(Filter(df, OnRoute(x.obs.route))))
    ensures x.obs.vehicle in Distinct(Vehicles(StopRows(df, x.obs.route, x.obs.stop)))
    ensures x in GroupRows(df, x.obs.route, x.obs.stop, x.obs.vehicle)
  {
    var p, s := x.obs.route, x.obs.stop;
    var i :| 0 <= i < |df| && df[i] == x;
    assert Routes(df)[i] == p;
    InSortedDistinct(Routes(df), p);
    var pathDf := Filter(df, OnRoute(p));
    var j :| 0 <= j < |pathDf| && pathDf[j] == x;
    assert Stops(pathDf)[j] == s;
    var stopDf := StopRows(df, p, s);
    var k :| 0 <= k < |stopDf| && stopDf[k] == x;
    assert Vehicles(stopDf)[k] == x.obs.vehicle;
  }

  lemma InStopFrames(df: seq<RawRow>, p: int, s: int, fr: seq<Emitted>)
    ensures fr in StopFrames(df, p, s) <==>
      exists t :: t in Distinct(Vehicles(StopRows(df, p, s))) && fr in GroupEmission(GroupRows(df, p, s, t))
  {
    InConcatMap(Distinct(Vehicles(StopRows(df, p, s))), VehicleStep(df, p, s), fr);
  }

  lemma InPathFrames(df: seq<RawRow>, p: int, fr: seq<Emitted>)
    ensures fr in PathFrames(df, p) <==>
      exists s :: s in Distinct(Stops(Filter(df, OnRoute(p)))) && fr in StopFrames(df, p, s)
  {
    InConcatMap(Distinct(Stops(Filter(df, OnRoute(p)))), StopStep(df, p), fr);
  }

  lemma InEmittedFrames(df: seq<RawRow>, fr: seq<Emitted>)
    ensures fr in EmittedFrames(df) <==>
      exists p :: p in SortInts(Distinct(Routes(df))) && fr in PathFrames(df, p)
  {
    InConcatMap(SortInts(Distinct(Routes(df))), PathStep(df), fr);
  }

  /** Every emitted frame is a frame of one (route direction, stop, vehicle) group. */
  lemma FrameOrigin(df: seq<RawRow>, fr: seq<Emitted>)
    requires fr in EmittedFrames(df)
    ensures exists p, s, t :: fr in GroupEmission(GroupRows(df, p, s, t))
  {
    InEmittedFrames(df, fr);
    var p :| p in SortInts(Distinct(Routes(df))) && fr in PathFrames(df, p);
    InPathFrames(df, p, fr);
    var s :| s in Distinct(Stops(Filter(df, OnRoute(p)))) && fr in StopFrames(df, p, s);
    InStopFrames(df, p, s, fr);
  }

  /** The frames of the group of a row of the input are all emitted. */
  lemma FrameCollected(df: seq<RawRow>, x: RawRow, fr: seq<Emitted>)
    requires x in df && fr in GroupEmission(GroupRows(df, x.obs.route, x.obs.stop, x.obs.vehicle))
    ensures fr in EmittedFrames(df)
  {
    GroupVisited(df, x);
    InStopFrames(df, x.obs.route, x.obs.stop, fr);
    InPathFrames(df, x.obs.route, fr);
    InEmittedFrames(df, fr);
  }

  /** `aggregate_schedule_items` raises exactly when the input has no scheduled row. */
  lemma AggregatedTableRaisesIff(df: seq<RawRow>)
    ensures AggregatedTable(df).Raised? <==> |Filter(df, RawScheduled)| == 0
  {
    var frames := EmittedFrames(df);
    if |frames| > 0 {
      FrameOrigin(df, frames[0]);
      var p, s, t :| frames[0] in GroupEmission(GroupRows(df, p, s, t));
      var y := Filter(GroupRows(df, p, s, t), RawScheduled)[0];
      assert y in Filter(GroupRows(df, p, s, t), RawScheduled);
      assert y in Filter(df, RawScheduled);
    }
    if |Filter(df, RawScheduled)| > 0 {
      var x := Filter(df, RawScheduled)[0];
      assert x in Filter(df, RawScheduled);
      var group := GroupRows(df, x.obs.route, x.obs.stop, x.obs.vehicle);
      GroupVisited(df, x);
      assert x in Filter(group, RawScheduled);
      FrameCollected(df, x, GroupEmission(group)[0]);
    }
  }

  /**
   * The telemetry rows of the result are exactly the telemetry rows of the
   * input, `id` dropped, whose (route direction, stop, vehicle) group has a
   * scheduled row; `tmId == 0` included.
   */
  lemma InAggregatedTelemetry(df: seq<RawRow>, o: Observation)
    ensures Telemetry(o) in Concat(EmittedFrames(df)) <==>
      exists x :: x in df && RawTelemetry(x) && x.obs == o &&
        |Filter(GroupRows(df, x.obs.route, x.obs.stop, x.obs.vehicle), RawScheduled)| > 0
  {
    if Telemetry(o) in Concat(EmittedFrames(df)) {
      EmittedTelemetryOrigin(df, o);
    }
    if exists x :: x in df && RawTelemetry(x) && x.obs == o &&
        |Filter(GroupRows(df, x.obs.route, x.obs.stop, x.obs.vehicle), RawScheduled)| > 0 {
      var x :| x in df && RawTelemetry(x) && x.obs == o &&
        |Filter(GroupRows(df, x.obs.route, x.obs.stop, x.obs.vehicle), RawScheduled)| > 0;
      TelemetryEmitted(df, x);
    }
  }

  lemma EmittedTelemetryOrigin(df: seq<RawRow>, o: Observation)
    requires Telemetry(o) in Concat(EmittedFrames(df))
    ensures exists x ::
      x in df && RawTelemetry(x) && x.obs == o &&
      |Filter(GroupRows(df, x.obs.route, x.obs.stop, x.obs.vehicle), RawScheduled)| > 0
  {
    var frames := EmittedFrames(df);
    InConcat(frames, Telemetry(o));
    var n :| 0 <= n < |frames| && Telemetry(o) in frames[n];
    FrameOrigin(df, frames[n]);
    var p, s, t :| frames[n] in GroupEmission(GroupRows(df, p, s, t));
    GroupTelemetry(GroupRows(df, p, s, t), o);
    var x :| x in GroupRows(df, p, s, t) && RawTelemetry(x) && x.obs == o;
    assert GroupRows(df, x.obs.route, x.obs.stop, x.obs.vehicle) == GroupRows(df, p, s, t);
  }

  lemma TelemetryEmitted(df: seq<RawRow>, x: RawRow)
    requires x in df && RawTelemetry(x)
    requires |Filter(GroupRows(df, x.obs.route, x.obs.stop, x.obs.vehicle), RawScheduled)| > 0
    ensures Telemetry(x.obs) in Concat(EmittedFrames(df))
  {
    var frames := EmittedFrames(df);
    var group := GroupRows(df, x.obs.route, x.obs.stop, x.obs.vehicle);
    GroupVisited(df, x);
    GroupTelemetry(group, x.obs);
    var fr :| fr in GroupEmission(group) && Telemetry(x.obs) in fr;
    FrameCollected(df, x, fr);
    InConcat(frames, Telemetry(x.obs));
    var n :| 0 <= n < |frames| && frames[n] == fr;
  }
}
