/**
 * `assign_actual_arrival_time`: split the forecast log by vehicle (ascending
 * `tmId`, skipping the unreliable `tmId == 0`), then by route direction and by
 * stop (both in order of first appearance); run `define_actual_time` on every
 * group that holds both telemetry and scheduled rows, keep the groups that
 * yield rows, skip those that raise, and concatenate the kept frames.
 */
module ArrivalDriver {
  import opened Collections
  import opened Rows
  import opened ArrivalTime

  /** `vehicle_df`. */
  function VehicleRows(df: seq<RawRow>, v: int): seq<RawRow> {
    Filter(df, OfVehicle(v))
  }

  /** `route_path_df`. */
  function RouteRows(df: seq<RawRow>, v: int, p: int): seq<RawRow> {
    Filter(VehicleRows(df, v), OnRoute(p))
  }

  /**
   * `stop_df` after the inner merge with the stop coordinate table: the rows
   * of a stop without coordinates are all dropped.
   */
  function StopGroup(df: seq<RawRow>, located: set<int>, v: int, p: int, s: int): seq<RawRow> {
    if s in located then Filter(RouteRows(df, v, p), AtStop(s)) else []
  }

  /** The guard before `define_actual_time`: both telemetry and scheduled rows. */
  predicate HasBothKinds(group: seq<RawRow>) {
    |Filter(group, RawTelemetry)| > 0 && |Filter(group, RawScheduled)| > 0
  }

  /**
   * What the driver does with one group's rows. The driver functions below
   * take it as a parameter; the program uses `ActualTimes`.
   */
  type Resolver = seq<RawRow> -> Result<Option<seq<ArrivalRow>>>

  /** The frame a group contributes: none, or the rows the resolver returns; a group that raises contributes none. */
  function FramesOf(group: seq<RawRow>, resolve: Resolver): seq<seq<ArrivalRow>> {
    if !HasBothKinds(group) then []
    else
      match resolve(group)
      case Ok(Some(frame)) => [frame]
      case _ => []
  }

  function GroupFrames(df: seq<RawRow>, located: set<int>, resolve: Resolver, v: int, p: int, s: int): seq<seq<ArrivalRow>> {
    FramesOf(StopGroup(df, located, v, p, s), resolve)
  }

  function GroupStep(df: seq<RawRow>, located: set<int>, resolve: Resolver, v: int, p: int): int -> seq<seq<ArrivalRow>> {
    (s: int) => GroupFrames(df, located, resolve, v, p, s)
  }

  /** The frames of one route direction of one vehicle, stop by stop. */
  function RouteFrames(df: seq<RawRow>, located: set<int>, resolve: Resolver, v: int, p: int): seq<seq<ArrivalRow>> {
    ConcatMap(Distinct(Stops(RouteRows(df, v, p))), GroupStep(df, located, resolve, v, p))
  }

  function RouteStep(df: seq<RawRow>, located: set<int>, resolve: Resolver, v: int): int -> seq<seq<ArrivalRow>> {
    (p: int) => RouteFrames(df, located, resolve, v, p)
  }

  /** The frames of one vehicle, route direction by route direction; none for `tmId == 0`. */
  function VehicleFrames(df: seq<RawRow>, located: set<int>, resolve: Resolver, v: int): seq<seq<ArrivalRow>> {
    if v == 0 then [] else ConcatMap(Distinct(Routes(VehicleRows(df, v))), RouteStep(df, located, resolve, v))
  }

  function VehicleStep(df: seq<RawRow>, located: set<int>, resolve: Resolver): int -> seq<seq<ArrivalRow>> {
    (v: int) => VehicleFrames(df, located, resolve, v)
  }

  /** The vehicles in the order they are processed. */
  function VehicleOrder(df: seq<RawRow>): seq<int> {
    SortInts(Distinct(Vehicles(df)))
  }

  function AllFrames(df: seq<RawRow>, located: set<int>, resolve: Resolver): seq<seq<ArrivalRow>> {
    ConcatMap(VehicleOrder(df), VehicleStep(df, located, resolve))
  }

  /** `pd.concat` of the collected frames, which raises when there are none. */
  function Assemble(frames: seq<seq<ArrivalRow>>): Result<seq<ArrivalRow>> {
    if |frames| == 0 then Raised(NothingToConcatenate) else Ok(Concat(frames))
  }

  /** The table `assign_actual_arrival_time` writes. */
  function ArrivalTable(df: seq<RawRow>, located: set<int>): Result<seq<ArrivalRow>> {
    Assemble(AllFrames(df, located, ActualTimes))
  }

  /** The body of the stop loop: select the group, then process it. */
  method ProcessStop(df: seq<RawRow>, located: set<int>, v: int, p: int, s: int) returns (found: seq<seq<ArrivalRow>>)
    ensures found == GroupFrames(df, located, ActualTimes, v, p, s)
  {
    var stopDf := Filter(RouteRows(df, v, p), AtStop(s));
    if s !in located {
      stopDf := [];
    }
    assert stopDf == StopGroup(df, located, v, p, s);
    found := ProcessGroup(stopDf);
  }

  /**
   * The guarded call inside the stop loop's `try`: a group that raises is
   * reported and skipped, so it contributes nothing.
   */
  method ProcessGroup(stopDf: seq<RawRow>) returns (found: seq<seq<ArrivalRow>>)
    ensures found == FramesOf(stopDf, ActualTimes)
  {
    var transponderData := Filter(stopDf, RawTelemetry);
    var forecastedData := Filter(stopDf, RawScheduled);
    found := [];
    if |transponderData| > 0 && |forecastedData| > 0 {
      var arrival := DefineActualTime(stopDf);
      if arrival.Ok? && arrival.value.Some? {
        found := [arrival.value.value];
      }
    }
  }

  /** The stop loop for one route direction of one vehicle. */
  method ProcessRoute(df: seq<RawRow>, located: set<int>, v: int, p: int) returns (found: seq<seq<ArrivalRow>>)
    ensures found == RouteFrames(df, located, ActualTimes, v, p)
  {
    var routeDf := Filter(Filter(df, OfVehicle(v)), OnRoute(p));
    var stops := Distinct(Stops(routeDf));
    found := [];
    var k := 0;
    while k < |stops|
      invariant 0 <= k <= |stops|
      invariant found == ConcatMap(stops[..k], GroupStep(df, located, ActualTimes, v, p))
    {
      ConcatMapStep(stops, GroupStep(df, located, ActualTimes, v, p), k);
      var frames := ProcessStop(df, located, v, p, stops[k]);
      found := found + frames;
      k := k + 1;
    }
    assert stops[..|stops|] == stops;
  }

  /** The route loop for one vehicle; `tmId == 0` is skipped. */
  method ProcessVehicle(df: seq<RawRow>, located: set<int>, v: int) returns (found: seq<seq<ArrivalRow>>)
    ensures found == VehicleFrames(df, located, ActualTimes, v)
  {
    found := [];
    if v == 0 {
      return;
    }
    var vehicleDf := Filter(df, OfVehicle(v));
    var paths := Distinct(Routes(vehicleDf));
    var j := 0;
    while j < |paths|
      invariant 0 <= j <= |paths|
      invariant found == ConcatMap(paths[..j], RouteStep(df, located, ActualTimes, v))
    {
      ConcatMapStep(paths, RouteStep(df, located, ActualTimes, v), j);
      var frames := ProcessRoute(df, located, v, paths[j]);
      found := found + frames;
      j := j + 1;
    }
    assert paths[..|paths|] == paths;
  }

  /**
   * The driver loop. `located` is the set of stops the coordinate table
   * lists; reading both tables and writing the result are left to the caller.
   */
  method AssignActualArrivalTime(df: seq<RawRow>, located: set<int>) returns (r: Result<seq<ArrivalRow>>)
    ensures r == ArrivalTable(df, located)
  {
    var vehicles := SortInts(Distinct(Vehicles(df)));
    var finalDf: seq<seq<ArrivalRow>> := [];
    var i := 0;
    while i < |vehicles|
      invariant 0 <= i <= |vehicles|
      invariant finalDf == ConcatMap(vehicles[..i], VehicleStep(df, located, ActualTimes))
    {
      ConcatMapStep(vehicles, VehicleStep(df, located, ActualTimes), i);
      var frames := ProcessVehicle(df, located, vehicles[i]);
      finalDf := finalDf + frames;
      i := i + 1;
    }
    assert vehicles[..|vehicles|] == vehicles;
    assert finalDf == AllFrames(df, located, ActualTimes);
    if |finalDf| == 0 {
      return Raised(NothingToConcatenate);
    }
    return Ok(Concat(finalDf));
  }

  lemma InStopGroup(df: seq<RawRow>, located: set<int>, v: int, p: int, s: int, x: RawRow)
    ensures x in StopGroup(df, located, v, p, s) <==>
      x in df && x.obs.vehicle == v && x.obs.route == p && x.obs.stop == s && s in located
  {
    var vehicleDf := VehicleRows(df, v);
    var routeDf := RouteRows(df, v, p);
    if x in df && x.obs.vehicle == v {
      var i :| 0 <= i < |df| && df[i] == x;
      assert OfVehicle(v)(df[i]);
    }
    if x in vehicleDf && x.obs.route == p {
      var i :| 0 <= i < |vehicleDf| && vehicleDf[i] == x;
      assert OnRoute(p)(vehicleDf[i]);
    }
    if x in routeDf && x.obs.stop == s {
      var i :| 0 <= i < |routeDf| && routeDf[i] == x;
      assert AtStop(s)(routeDf[i]);
    }
  }

  lemma InAllFrames(df: seq<RawRow>, located: set<int>, resolve: Resolver, frame: seq<ArrivalRow>)
    ensures frame in AllFrames(df, located, resolve) <==>
      exists v :: v in VehicleOrder(df) && frame in VehicleFrames(df, located, resolve, v)
  {
    InConcatMap(VehicleOrder(df), VehicleStep(df, located, resolve), frame);
  }

  lemma InVehicleFrames(df: seq<RawRow>, located: set<int>, resolve: Resolver, v: int, frame: seq<ArrivalRow>)
    ensures frame in VehicleFrames(df, located, resolve, v) <==>
      v != 0 && exists p :: p in Distinct(Routes(VehicleRows(df, v))) && frame in RouteFrames(df, located, resolve, v, p)
  {
    if v != 0 {
      InConcatMap(Distinct(Routes(VehicleRows(df, v))), RouteStep(df, located, resolve, v), frame);
    }
  }

  lemma InRouteFrames(df: seq<RawRow>, located: set<int>, resolve: Resolver, v: int, p: int, frame: seq<ArrivalRow>)
    ensures frame in RouteFrames(df, located, resolve, v, p) <==>
      exists s :: s in Distinct(Stops(RouteRows(df, v, p))) && frame in GroupFrames(df, located, resolve, v, p, s)
  {
    InConcatMap(Distinct(Stops(RouteRows(df, v, p))), GroupStep(df, located, resolve, v, p), frame);
  }

  /** Every collected frame is the frame of one group of a vehicle other than `tmId == 0`. */
  lemma FrameOrigin(df: seq<RawRow>, located: set<int>, resolve: Resolver, frame: seq<ArrivalRow>)
    requires frame in AllFrames(df, located, resolve)
    ensures exists v, p, s :: v != 0 && GroupFrames(df, located, resolve, v, p, s) == [frame]
  {
    InAllFrames(df, located, resolve, frame);
    var v :| v in VehicleOrder(df) && frame in VehicleFrames(df, located, resolve, v);
    InVehicleFrames(df, located, resolve, v, frame);
    var p :| p in Distinct(Routes(VehicleRows(df, v))) && frame in RouteFrames(df, located, resolve, v, p);
    InRouteFrames(df, located, resolve, v, p, frame);
    var s :| s in Distinct(Stops(RouteRows(df, v, p))) && frame in GroupFrames(df, located, resolve, v, p, s);
    FramesOfSingle(StopGroup(df, located, v, p, s), resolve, frame);
  }

  /** A group contributes at most one frame. */
  lemma FramesOfSingle(group: seq<RawRow>, resolve: Resolver, frame: seq<ArrivalRow>)
    requires frame in FramesOf(group, resolve)
    ensures FramesOf(group, resolve) == [frame]
  {
  }

  /** A group with rows is visited: its vehicle, route direction and stop are all enumerated. */
  lemma GroupVisited(df: seq<RawRow>, located: set<int>, v: int, p: int, s: int)
    requires |StopGroup(df, located, v, p, s)| > 0
    ensures v in VehicleOrder(df)
    ensures p in Distinct(Routes(VehicleRows(df, v)))
    ensures s in Distinct(Stops(RouteRows(df, v, p)))
  {
    var x := StopGroup(df, located, v, p, s)[0];
    InStopGroup(df, located, v, p, s, x);
    var i :| 0 <= i < |df| && df[i] == x;
    assert Vehicles(df)[i] == v;
    InSortedDistinct(Vehicles(df), v);
    var vehicleDf := VehicleRows(df, v);
    assert x in vehicleDf by {
      assert OfVehicle(v)(df[i]);
    }
    var iv :| 0 <= iv < |vehicleDf| && vehicleDf[iv] == x;
    assert Routes(vehicleDf)[iv] == p;
    var routeDf := RouteRows(df, v, p);
    assert x in routeDf by {
      assert OnRoute(p)(vehicleDf[iv]);
    }
    var ir :| 0 <= ir < |routeDf| && routeDf[ir] == x;
    assert Stops(routeDf)[ir] == s;
  }

  /** Every group of a vehicle other than `tmId == 0` that yields a frame has that frame collected. */
  lemma FrameCollected(df: seq<RawRow>, located: set<int>, resolve: Resolver, v: int, p: int, s: int, f: seq<ArrivalRow>)
    requires v != 0 && GroupFrames(df, located, resolve, v, p, s) == [f]
    ensures f in AllFrames(df, located, resolve)
  {
    assert |Filter(StopGroup(df, located, v, p, s), RawTelemetry)| > 0;
    GroupVisited(df, located, v, p, s);
    InRouteFrames(df, located, resolve, v, p, f);
    InVehicleFrames(df, located, resolve, v, f);
    InAllFrames(df, located, resolve, f);
  }

  /** A group's frame is what the resolver returns for a group holding both kinds of rows. */
  lemma GroupFramesOf(df: seq<RawRow>, located: set<int>, resolve: Resolver, v: int, p: int, s: int, f: seq<ArrivalRow>)
    ensures GroupFrames(df, located, resolve, v, p, s) == [f] <==>
      HasBothKinds(StopGroup(df, located, v, p, s)) && resolve(StopGroup(df, located, v, p, s)) == Ok(Some(f))
  {
    FramesOfIff(StopGroup(df, located, v, p, s), resolve, f);
  }

  lemma FramesOfIff(group: seq<RawRow>, resolve: Resolver, f: seq<ArrivalRow>)
    ensures FramesOf(group, resolve) == [f] <==> HasBothKinds(group) && resolve(group) == Ok(Some(f))
  {
  }

  /**
   * Every row of the written table belongs to a vehicle other than
   * `tmId == 0`, at a stop with coordinates, comes from the input, and its
   * arrival time is the forecast of a telemetry row of the same vehicle,
   * route direction and stop made less than two minutes ahead.
   */
  lemma ArrivalTableRows(df: seq<RawRow>, located: set<int>, a: ArrivalRow)
    requires ArrivalTable(df, located).Ok? && a in ArrivalTable(df, located).value
    ensures a.obs.vehicle != 0 && a.obs.stop in located
    ensures exists i :: 0 <= i < |df| && df[i].obs == a.obs
    ensures exists i ::
      0 <= i < |df| && IsTelemetry(df[i].obs) &&
      df[i].obs.vehicle == a.obs.vehicle && df[i].obs.route == a.obs.route && df[i].obs.stop == a.obs.stop &&
      Horizon(df[i].obs) < MinForecastHorizonSeconds && a.arrival == df[i].obs.forecast
  {
    var frames := AllFrames(df, located, ActualTimes);
    InConcat(frames, a);
    var n :| 0 <= n < |frames| && a in frames[n];
    FrameOrigin(df, located, ActualTimes, frames[n]);
    var v, p, s :| v != 0 && GroupFrames(df, located, ActualTimes, v, p, s) == [frames[n]];
    GroupFramesOf(df, located, ActualTimes, v, p, s, frames[n]);
    GroupArrival(df, located, v, p, s, frames[n], a);
  }

  /** The per-group half of `ArrivalTableRows`. */
  lemma GroupArrival(df: seq<RawRow>, located: set<int>, v: int, p: int, s: int, f: seq<ArrivalRow>, a: ArrivalRow)
    requires ActualTimes(StopGroup(df, located, v, p, s)) == Ok(Some(f)) && a in f
    ensures a.obs.vehicle == v && a.obs.stop == s && s in located
    ensures exists i :: 0 <= i < |df| && df[i].obs == a.obs
    ensures exists i ::
      0 <= i < |df| && IsTelemetry(df[i].obs) &&
      df[i].obs.vehicle == a.obs.vehicle && df[i].obs.route == a.obs.route && df[i].obs.stop == a.obs.stop &&
      Horizon(df[i].obs) < MinForecastHorizonSeconds && a.arrival == df[i].obs.forecast
  {
    var group := StopGroup(df, located, v, p, s);
    ArrivalFromGroup(group, f, a);
    var i :| 0 <= i < |group| && group[i].obs == a.obs;
    var j :| 0 <= j < |group| && IsTelemetry(group[j].obs) &&
      Horizon(group[j].obs) < MinForecastHorizonSeconds && a.arrival == group[j].obs.forecast;
    InStopGroup(df, located, v, p, s, group[i]);
    InStopGroup(df, located, v, p, s, group[j]);
    var di :| 0 <= di < |df| && df[di] == group[i];
    var dj :| 0 <= dj < |df| && df[dj] == group[j];
  }

  /** An emitted row and the telemetry row that stamps it both come from the group. */
  lemma ArrivalFromGroup(group: seq<RawRow>, f: seq<ArrivalRow>, a: ArrivalRow)
    requires ActualTimes(group) == Ok(Some(f)) && a in f
    ensures exists i :: 0 <= i < |group| && group[i].obs == a.obs
    ensures exists j ::
      0 <= j < |group| && IsTelemetry(group[j].obs) &&
      Horizon(group[j].obs) < MinForecastHorizonSeconds && a.arrival == group[j].obs.forecast
  {
    ActualTimesArrival(group, a);
    var rows := Enriched(Deduplicate(group)).value;
    var t :| t in rows && IsTelemetryRow(t) && Horizon(t.obs) < MinForecastHorizonSeconds && a.arrival == t.obs.forecast;
    EnrichedRowsFromGroup(Deduplicate(group), t);
    var j :| 0 <= j < |group| && group[j].obs == t.obs;
  }

  /**
   * A failing group does not hide the others: every group of a vehicle other
   * than `tmId == 0` for which `define_actual_time` returns rows has all those
   * rows in the written table.
   */
  lemma ArrivalTableCollectsGroup(df: seq<RawRow>, located: set<int>, v: int, p: int, s: int, f: seq<ArrivalRow>)
    requires v != 0 && HasBothKinds(StopGroup(df, located, v, p, s))
    requires ActualTimes(StopGroup(df, located, v, p, s)) == Ok(Some(f))
    ensures ArrivalTable(df, located).Ok?
    ensures forall a :: a in f ==> a in ArrivalTable(df, located).value
  {
    GroupFramesOf(df, located, ActualTimes, v, p, s, f);
    FrameCollected(df, located, ActualTimes, v, p, s, f);
    var frames := AllFrames(df, located, ActualTimes);
    forall a | a in f ensures a in Concat(frames) {
      InConcat(frames, a);
    }
  }

  /** No frame is collected exactly when no group of a vehicle other than `tmId == 0` contributes one. */
  lemma AllFramesEmptyIff(df: seq<RawRow>, located: set<int>, resolve: Resolver)
    ensures |AllFrames(df, located, resolve)| == 0 <==>
      !exists v, p, s :: v != 0 && GroupFrames(df, located, resolve, v, p, s) != []
  {
    var frames := AllFrames(df, located, resolve);
    if |frames| > 0 {
      FrameOrigin(df, located, resolve, frames[0]);
    }
    if exists v, p, s :: v != 0 && GroupFrames(df, located, resolve, v, p, s) != [] {
      var v, p, s :| v != 0 && GroupFrames(df, located, resolve, v, p, s) != [];
      var f := GroupFrames(df, located, resolve, v, p, s)[0];
      FramesOfSingle(StopGroup(df, located, v, p, s), resolve, f);
      FrameCollected(df, located, resolve, v, p, s, f);
    }
  }

  /** Writing fails exactly when no group of a vehicle other than `tmId == 0` yields rows. */
  lemma ArrivalTableRaisesIff(df: seq<RawRow>, located: set<int>)
    ensures ArrivalTable(df, located).Raised? <==>
      !exists v, p, s :: v != 0 && GroupFrames(df, located, ActualTimes, v, p, s) != []
  {
    AllFramesEmptyIff(df, located, ActualTimes);
  }
}
