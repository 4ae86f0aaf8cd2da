/**
 * Actual-arrival-time inference for one (vehicle, route direction, stop)
 * group: deduplicate, split the scheduled rows into cases, attach each
 * telemetry row to the case of its nearest scheduled row, and for every case
 * whose closest-to-arrival telemetry forecast was made less than two minutes
 * ahead, stamp that forecast on the case's rows as the arrival time.
 */
module ArrivalTime {
  import opened Collections
  import opened Rows
  import opened Segmentation

  /** `BELONG_CASE_SECONDS_TEL_THRESHOLD`: telemetry farther than this from every scheduled row belongs to no case. */
  const BelongCaseSecondsTelThreshold: int := 20 * 60

  /** `MIN_FORECAST_HORIZON_SECONDS`: a telemetry forecast made less than this ahead is trusted as the arrival. */
  const MinForecastHorizonSeconds: int := 120

  /** A row of a group together with the case it was put in. */
  datatype CasedRow = CasedRow(obs: Observation, caseIndex: nat)

  /** A row of the output table: the original fields, the case and `arrival_time`. */
  datatype ArrivalRow = ArrivalRow(obs: Observation, caseIndex: nat, arrival: int)

  // ---------------------------------------------------------------------
  // _find_scheduled_row
  // ---------------------------------------------------------------------

  /**
   * The single row of a one-row frame; otherwise the last scheduled row, or
   * the last row when there is none. `iloc[-1]` on an empty frame raises.
   */
  method FindScheduledRow(frame: seq<Observation>) returns (r: Result<Observation>)
    ensures r.Raised? <==> |frame| == 0
    ensures |frame| == 1 ==> r == Ok(frame[0])
    ensures |frame| > 1 && (exists i :: 0 <= i < |frame| && IsScheduled(frame[i])) ==>
      exists k :: 0 <= k < |frame| && r == Ok(frame[k]) && IsScheduled(frame[k]) &&
        forall j :: k < j < |frame| ==> IsTelemetry(frame[j])
    ensures |frame| > 1 && (forall i :: 0 <= i < |frame| ==> IsTelemetry(frame[i])) ==>
      r == Ok(frame[|frame| - 1])
  {
    if |frame| == 1 {
      return Ok(frame[0]);
    }
    var i := |frame| - 1;
    while i >= 0
      invariant -1 <= i < |frame|
      invariant forall j :: i < j < |frame| ==> IsTelemetry(frame[j])
    {
      if !frame[i].byTelemetry {
        return Ok(frame[i]);
      }
      i := i - 1;
    }
    if |frame| == 0 {
      return Raised(IndexError);
    }
    return Ok(frame[|frame| - 1]);
  }

  // ---------------------------------------------------------------------
  // Deduplication: drop(columns=['id']).drop_duplicates()
  // ---------------------------------------------------------------------

  function Deduplicate(rows: seq<RawRow>): (r: seq<Observation>)
    ensures NoDuplicates(r)
    ensures forall i :: 0 <= i < |rows| ==> rows[i].obs in r
    ensures forall o :: o in r ==> exists i :: 0 <= i < |rows| && rows[i].obs == o
  {
    var d := Distinct(DropId(rows));
    assert forall i :: 0 <= i < |rows| ==> DropId(rows)[i] == rows[i].obs;
    d
  }

  /** Deduplicating an already deduplicated table changes nothing. */
  lemma DeduplicateIdempotent(rows: seq<RawRow>)
    ensures Distinct(Deduplicate(rows)) == Deduplicate(rows)
  {
    DistinctOfNoDuplicates(Deduplicate(rows));
  }

  // ---------------------------------------------------------------------
  // Telemetry assignment
  // ---------------------------------------------------------------------

  /** `np.abs(forecast_time_for_tel - forecast_time)`. */
  function Distance(s: Observation, t: Observation): nat {
    if t.forecast >= s.forecast then t.forecast - s.forecast else s.forecast - t.forecast
  }

  function Distances(scheduled: seq<Observation>, t: Observation): seq<nat> {
    seq(|scheduled|, i requires 0 <= i < |scheduled| => Distance(scheduled[i], t))
  }

  function MinDistance(scheduled: seq<Observation>, t: Observation): int
    requires |scheduled| > 0
  {
    Min(Distances(scheduled, t))
  }

  /**
   * The case telemetry row `t` receives: the case of its nearest scheduled row
   * when that row lies closer than the threshold, none otherwise. Among equally
   * near scheduled rows the first in sorted order is taken.
   */
  function AssignedCase(scheduled: seq<Observation>, cases: seq<nat>, t: Observation): Option<nat>
    requires |scheduled| == |cases| > 0
  {
    var d := Distances(scheduled, t);
    if Min(d) < BelongCaseSecondsTelThreshold then Some(cases[FirstArgMin(d)]) else None
  }

  /** The assigned case is that of a scheduled row at minimum distance, and exists iff that distance is under the threshold. */
  lemma AssignedCaseIsNearest(scheduled: seq<Observation>, cases: seq<nat>, t: Observation)
    requires |scheduled| == |cases| > 0
    ensures AssignedCase(scheduled, cases, t).Some? <==> MinDistance(scheduled, t) < BelongCaseSecondsTelThreshold
    ensures AssignedCase(scheduled, cases, t).Some? ==>
      exists j :: 0 <= j < |scheduled| && Distance(scheduled[j], t) == MinDistance(scheduled, t) &&
        cases[j] == AssignedCase(scheduled, cases, t).value
  {
    var d := Distances(scheduled, t);
    var j := FirstArgMin(d);
    assert d[j] == Min(d) by {
      var k :| 0 <= k < |d| && d[k] == Min(d);
      assert d[j] <= d[k] && d[j] in d;
    }
  }

  /** `diff.argsort()[:2]`: a nearest position and a nearest among the others. */
  method NearestTwo(diff: seq<int>) returns (left: nat, right: nat)
    requires |diff| >= 2
    ensures left < |diff| && right < |diff| && left != right
    ensures forall k :: 0 <= k < |diff| ==> diff[left] <= diff[k]
    ensures forall k :: 0 <= k < |diff| && k != left ==> diff[right] <= diff[k]
    ensures left == FirstArgMin(diff)
  {
    left := 0;
    var i := 1;
    while i < |diff|
      invariant 1 <= i <= |diff| && left < i
      invariant forall k :: 0 <= k < i ==> diff[left] <= diff[k]
      invariant forall k :: 0 <= k < left ==> diff[left] < diff[k]
    {
      if diff[i] < diff[left] {
        left := i;
      }
      i := i + 1;
    }
    right := if left == 0 then 1 else 0;
    i := 0;
    while i < |diff|
      invariant 0 <= i <= |diff| && right < |diff| && right != left
      invariant forall k :: 0 <= k < i && k != left ==> diff[right] <= diff[k]
    {
      if i != left && diff[i] < diff[right] {
        right := i;
      }
      i := i + 1;
    }
  }

  /**
   * The body of the telemetry loop for one telemetry row, branch by branch.
   * The branch that appends `right_distance` instead of a case needs the
   * second-nearest row to be strictly nearer than the nearest one, which
   * `argsort` never yields: the ensures clauses hold on every path.
   */
  method AssignCase(scheduled: seq<Observation>, cases: seq<nat>, t: Observation) returns (c: Option<nat>)
    requires |scheduled| == |cases| > 0
    ensures c.Some? <==> MinDistance(scheduled, t) < BelongCaseSecondsTelThreshold
    ensures c.Some? ==>
      exists j :: 0 <= j < |scheduled| && Distance(scheduled[j], t) == MinDistance(scheduled, t) && cases[j] == c.value
    ensures c == AssignedCase(scheduled, cases, t)
  {
    AssignedCaseIsNearest(scheduled, cases, t);
    var diff := Distances(scheduled, t);
    if |scheduled| == 1 {
      assert Min(diff) == diff[0];
      if diff[0] < BelongCaseSecondsTelThreshold {
        c := Some(cases[0]);
      } else {
        c := None;
      }
      return;
    }
    var l, r := NearestTwo(diff);
    assert diff[l] == Min(diff) by {
      var k :| 0 <= k < |diff| && diff[k] == Min(diff);
      assert diff[l] <= diff[k] && diff[l] in diff;
    }
    var leftCase, rightCase := cases[l], cases[r];
    var leftDistance: nat, rightDistance: nat := diff[l], diff[r];
    if leftCase == rightCase {
      if leftDistance < BelongCaseSecondsTelThreshold {
        c := Some(leftCase);
      } else if rightDistance < BelongCaseSecondsTelThreshold {
        c := Some(rightCase);
      } else {
        c := None;
      }
      return;
    }
    if leftDistance <= rightDistance && leftDistance < BelongCaseSecondsTelThreshold {
      return Some(leftCase);
    }
    if leftDistance > rightDistance && rightDistance < BelongCaseSecondsTelThreshold {
      assert false;
      return Some(rightDistance);
    }
    return None;
  }

  /** The telemetry loop: one label per telemetry row, in order. */
  method AssignTelemetryCases(scheduled: seq<Observation>, cases: seq<nat>, telemetry: seq<Observation>)
    returns (r: Result<seq<Option<nat>>>)
    requires |scheduled| == |cases|
    ensures r.Raised? <==> |scheduled| == 0 && |telemetry| > 0
    ensures r.Raised? ==> r.error == IndexError
    ensures r.Ok? ==> |r.value| == |telemetry|
    ensures r.Ok? && |scheduled| > 0 ==>
      forall i :: 0 <= i < |telemetry| ==> r.value[i] == AssignedCase(scheduled, cases, telemetry[i])
  {
    var labels: seq<Option<nat>> := [];
    var i := 0;
    while i < |telemetry|
      invariant 0 <= i <= |telemetry| && |labels| == i
      invariant i > 0 ==> |scheduled| > 0
      invariant |scheduled| > 0 ==>
        forall k :: 0 <= k < i ==> labels[k] == AssignedCase(scheduled, cases, telemetry[k])
    {
      if |scheduled| == 0 {
        return Raised(IndexError);
      }
      var c := AssignCase(scheduled, cases, telemetry[i]);
      labels := labels + [c];
      i := i + 1;
    }
    return Ok(labels);
  }

  function ScheduledCased(scheduled: seq<Observation>, cases: seq<nat>): seq<CasedRow>
    requires |scheduled| == |cases|
  {
    seq(|scheduled|, i requires 0 <= i < |scheduled| => CasedRow(scheduled[i], cases[i]))
  }

  /** `dropna()` on the telemetry rows: keep those that received a case. */
  function KeepAssigned(telemetry: seq<Observation>, labels: seq<Option<nat>>): seq<CasedRow>
    requires |telemetry| == |labels|
    decreases |telemetry|
  {
    if |telemetry| == 0 then []
    else
      (if labels[0].Some? then [CasedRow(telemetry[0], labels[0].value)] else []) +
      KeepAssigned(telemetry[1..], labels[1..])
  }

  lemma {:induction false} InKeepAssigned(telemetry: seq<Observation>, labels: seq<Option<nat>>, row: CasedRow)
    requires |telemetry| == |labels|
    ensures row in KeepAssigned(telemetry, labels) <==>
      exists i :: 0 <= i < |telemetry| && telemetry[i] == row.obs && labels[i] == Some(row.caseIndex)
    decreases |telemetry|
  {
    if |telemetry| > 0 {
      InKeepAssigned(telemetry[1..], labels[1..], row);
      if exists i :: 0 <= i < |telemetry| && telemetry[i] == row.obs && labels[i] == Some(row.caseIndex) {
        var i :| 0 <= i < |telemetry| && telemetry[i] == row.obs && labels[i] == Some(row.caseIndex);
        if i > 0 {
          assert telemetry[1..][i - 1] == row.obs && labels[1..][i - 1] == Some(row.caseIndex);
        }
      }
      if row in KeepAssigned(telemetry[1..], labels[1..]) {
        var i :| 0 <= i < |telemetry| - 1 && telemetry[1..][i] == row.obs && labels[1..][i] == Some(row.caseIndex);
        assert telemetry[i + 1] == row.obs;
      }
    }
  }

  /** Order of the frame after `sort_values(by=['forecast_time', 'request_time'])`. */
  predicate ByForecastThenRequest(a: CasedRow, b: CasedRow) {
    a.obs.forecast < b.obs.forecast || (a.obs.forecast == b.obs.forecast && a.obs.request <= b.obs.request)
  }

  /** The scheduled rows of a group, sorted by forecast time. */
  function SortedScheduled(group: seq<Observation>): seq<Observation> {
    Filter(SortByForecast(group), IsScheduled)
  }

  function SortedTelemetry(group: seq<Observation>): seq<Observation> {
    Filter(SortByForecast(group), IsTelemetry)
  }

  /** The case index of every sorted scheduled row. */
  function GroupCases(group: seq<Observation>): seq<nat> {
    CaseIndices(Forecasts(SortedScheduled(group)))
  }

  /** The labels the telemetry loop produces when there are scheduled rows. */
  function TelemetryLabels(scheduled: seq<Observation>, cases: seq<nat>, telemetry: seq<Observation>): seq<Option<nat>>
    requires |scheduled| == |cases| > 0
  {
    seq(|telemetry|, i requires 0 <= i < |telemetry| => AssignedCase(scheduled, cases, telemetry[i]))
  }

  /**
   * What `_enrich_data_with_cases_and_horizon` returns for a deduplicated
   * group. The helper column `forecast_time_for_tel` is created only inside
   * the telemetry loop, so dropping it raises when the group has no telemetry
   * row; with telemetry but no scheduled row, `argsort()[:2]` is empty and
   * indexing it raises.
   */
  function Enriched(group: seq<Observation>): Result<seq<CasedRow>> {
    var scheduled := SortedScheduled(group);
    var telemetry := SortedTelemetry(group);
    if |scheduled| == 0 && |telemetry| > 0 then Raised(IndexError)
    else if |telemetry| == 0 then Raised(KeyError)
    else
      var cases := GroupCases(group);
      var frame := ScheduledCased(scheduled, cases) + KeepAssigned(telemetry, TelemetryLabels(scheduled, cases, telemetry));
      Ok(SortWith(frame, ByForecastThenRequest))
  }

  method EnrichWithCasesAndHorizon(group: seq<Observation>) returns (r: Result<seq<CasedRow>>)
    ensures r == Enriched(group)
  {
    var sorted := SortByForecast(group);
    var telemetry := Filter(sorted, IsTelemetry);
    var scheduled := Filter(sorted, IsScheduled);
    var cases := Segment(scheduled);
    var labels := AssignTelemetryCases(scheduled, cases, telemetry);
    if labels.Raised? {
      return Raised(labels.error);
    }
    if |telemetry| == 0 {
      return Raised(KeyError);
    }
    assert labels.value == TelemetryLabels(scheduled, cases, telemetry);
    var frame := ScheduledCased(scheduled, cases) + KeepAssigned(telemetry, labels.value);
    return Ok(SortWith(frame, ByForecastThenRequest));
  }

  lemma InSortedFilter(group: seq<Observation>, p: Observation -> bool, o: Observation)
    ensures o in Filter(SortByForecast(group), p) <==> o in group && p(o)
  {
    var sorted := SortByForecast(group);
    assert o in sorted <==> o in group by {
      assert o in sorted <==> o in multiset(sorted);
    }
    if o in Filter(sorted, p) {
      var i :| 0 <= i < |Filter(sorted, p)| && Filter(sorted, p)[i] == o;
    }
    if o in sorted && p(o) {
      var i :| 0 <= i < |sorted| && sorted[i] == o;
    }
  }

  /** Enrichment succeeds exactly when the group holds both scheduled and telemetry rows. */
  lemma EnrichedRaisesIff(group: seq<Observation>)
    ensures Enriched(group) == Raised(KeyError) <==> forall o :: o in group ==> IsScheduled(o)
    ensures Enriched(group) == Raised(IndexError) <==>
      (exists o :: o in group && IsTelemetry(o)) && forall o :: o in group ==> IsTelemetry(o)
    ensures Enriched(group).Ok? <==>
      (exists o :: o in group && IsTelemetry(o)) && (exists o :: o in group && IsScheduled(o))
  {
    var scheduled := SortedScheduled(group);
    var telemetry := SortedTelemetry(group);
    forall o ensures o in scheduled <==> o in group && IsScheduled(o) {
      InSortedFilter(group, IsScheduled, o);
    }
    forall o ensures o in telemetry <==> o in group && IsTelemetry(o) {
      InSortedFilter(group, IsTelemetry, o);
    }
    if |scheduled| > 0 {
      assert scheduled[0] in scheduled;
    }
    if |telemetry| > 0 {
      assert telemetry[0] in telemetry;
    }
  }

  /** The rows of the enriched frame: the sorted scheduled rows with their cases, and the telemetry rows that received one. */
  lemma InEnriched(group: seq<Observation>, row: CasedRow)
    requires Enriched(group).Ok?
    ensures |SortedScheduled(group)| > 0
    ensures row in Enriched(group).value <==>
      (IsScheduled(row.obs) &&
        (exists j :: 0 <= j < |SortedScheduled(group)| && SortedScheduled(group)[j] == row.obs &&
          GroupCases(group)[j] == row.caseIndex)) ||
      (IsTelemetry(row.obs) && row.obs in group &&
         AssignedCase(SortedScheduled(group), GroupCases(group), row.obs) == Some(row.caseIndex))
  {
    var s := SortedScheduled(group);
    var tel := SortedTelemetry(group);
    var cases := GroupCases(group);
    var labels := TelemetryLabels(s, cases, tel);
    var sc := ScheduledCased(s, cases);
    var frame := sc + KeepAssigned(tel, labels);
    assert row in Enriched(group).value <==> row in frame by {
      var sorted := SortWith(frame, ByForecastThenRequest);
      assert Enriched(group).value == sorted;
      assert row in sorted <==> row in multiset(sorted);
    }
    InKeepAssigned(tel, labels, row);
    InSortedFilter(group, IsTelemetry, row.obs);
    if row in sc {
      var j :| 0 <= j < |s| && sc[j] == row;
      assert s[j] in s;
    }
    if IsScheduled(row.obs) && exists j :: 0 <= j < |s| && s[j] == row.obs && cases[j] == row.caseIndex {
      var j :| 0 <= j < |s| && s[j] == row.obs && cases[j] == row.caseIndex;
      assert sc[j] == row;
    }
    if IsTelemetry(row.obs) && row.obs in group && AssignedCase(s, cases, row.obs) == Some(row.caseIndex) {
      var i :| 0 <= i < |tel| && tel[i] == row.obs;
      assert labels[i] == Some(row.caseIndex);
    }
  }

  /** Every row of the enriched frame comes from the group. */
  lemma EnrichedRowsFromGroup(group: seq<Observation>, row: CasedRow)
    requires Enriched(group).Ok? && row in Enriched(group).value
    ensures row.obs in group
  {
    InEnriched(group, row);
    if IsScheduled(row.obs) {
      var s := SortedScheduled(group);
      var j :| 0 <= j < |s| && s[j] == row.obs && GroupCases(group)[j] == row.caseIndex;
      InSortedFilter(group, IsScheduled, row.obs);
    }
  }

  /**
   * Every scheduled row of the group is kept, in the case the segmentation
   * gives its position among the sorted scheduled rows.
   */
  lemma EnrichedScheduled(group: seq<Observation>, o: Observation)
    requires Enriched(group).Ok? && o in group && IsScheduled(o)
    ensures exists c :: CasedRow(o, c) in Enriched(group).value
    ensures forall c :: CasedRow(o, c) in Enriched(group).value ==>
      exists j :: 0 <= j < |SortedScheduled(group)| && SortedScheduled(group)[j] == o &&
        c == CaseOf(Forecasts(SortedScheduled(group)), j)
  {
    var s := SortedScheduled(group);
    InSortedFilter(group, IsScheduled, o);
    var j :| 0 <= j < |s| && s[j] == o;
    InEnriched(group, CasedRow(o, GroupCases(group)[j]));
    forall c | CasedRow(o, c) in Enriched(group).value
      ensures exists j :: 0 <= j < |s| && s[j] == o && c == CaseOf(Forecasts(s), j)
    {
      InEnriched(group, CasedRow(o, c));
    }
  }

  lemma InEnrichedTelemetry(group: seq<Observation>, t: Observation, c: nat)
    requires Enriched(group).Ok? && t in group && IsTelemetry(t)
    ensures |SortedScheduled(group)| > 0
    ensures CasedRow(t, c) in Enriched(group).value <==>
      AssignedCase(SortedScheduled(group), GroupCases(group), t) == Some(c)
  {
    InEnriched(group, CasedRow(t, c));
  }

  /** A telemetry row with a scheduled row closer than twenty minutes is kept. */
  lemma EnrichedKeepsNearTelemetry(group: seq<Observation>, t: Observation)
    requires Enriched(group).Ok? && t in group && IsTelemetry(t)
    ensures |SortedScheduled(group)| > 0
    ensures MinDistance(SortedScheduled(group), t) < BelongCaseSecondsTelThreshold ==>
      exists c :: CasedRow(t, c) in Enriched(group).value
  {
    var s := SortedScheduled(group);
    var cases := GroupCases(group);
    InEnrichedTelemetry(group, t, 0);
    var a := AssignedCase(s, cases, t);
    AssignedCaseIsNearest(s, cases, t);
    if a.Some? {
      InEnrichedTelemetry(group, t, a.value);
    }
  }

  /**
   * A kept telemetry row had a scheduled row closer than twenty minutes and
   * carries the case of a nearest scheduled row.
   */
  lemma EnrichedTelemetryIsNearest(group: seq<Observation>, t: Observation, c: nat)
    requires Enriched(group).Ok? && t in group && IsTelemetry(t)
    requires CasedRow(t, c) in Enriched(group).value
    ensures |SortedScheduled(group)| > 0
    ensures MinDistance(SortedScheduled(group), t) < BelongCaseSecondsTelThreshold
    ensures exists j ::
      0 <= j < |SortedScheduled(group)| &&
      Distance(SortedScheduled(group)[j], t) == MinDistance(SortedScheduled(group), t) &&
      GroupCases(group)[j] == c
  {
    var s := SortedScheduled(group);
    var cases := GroupCases(group);
    InEnrichedTelemetry(group, t, c);
    AssignedCaseIsNearest(s, cases, t);
  }

  // ---------------------------------------------------------------------
  // define_actual_time: one case at a time
  // ---------------------------------------------------------------------

  datatype CaseOutcome =
    | Skipped                            // collision, no telemetry, or no forecast close enough to arrival
    | Failed                             // the arrival column does not fit the frame: the group is abandoned
    | Appended(frame: seq<ArrivalRow>)   // the case's rows, stamped with its arrival time

  predicate IsTelemetryRow(r: CasedRow) {
    r.obs.byTelemetry
  }

  function Requests(rows: seq<CasedRow>): seq<int> {
    seq(|rows|, i requires 0 <= i < |rows| => rows[i].obs.request)
  }

  function RowForecasts(rows: seq<CasedRow>): seq<int> {
    seq(|rows|, i requires 0 <= i < |rows| => rows[i].obs.forecast)
  }

  function RowHorizons(rows: seq<CasedRow>): seq<int> {
    seq(|rows|, i requires 0 <= i < |rows| => Horizon(rows[i].obs))
  }

  /** Repeated request times that received more distinct forecasts than there are distinct requests. */
  predicate HasCollision(rows: seq<CasedRow>) {
    var requests := |Distinct(Requests(rows))|;
    requests != |rows| && |Distinct(RowForecasts(rows))| > requests
  }

  function CaseTelemetry(rows: seq<CasedRow>): seq<CasedRow> {
    Filter(rows, IsTelemetryRow)
  }

  /** `min(telemetry_data['forecast_horizon'])`. */
  function MinTelemetryHorizon(rows: seq<CasedRow>): int
    requires |CaseTelemetry(rows)| > 0
  {
    Min(RowHorizons(CaseTelemetry(rows)))
  }

  /** `min_df`: the telemetry rows at horizon `h`. */
  function AtHorizon(h: int): CasedRow -> bool {
    (r: CasedRow) => IsTelemetryRow(r) && Horizon(r.obs) == h
  }

  /** The rows left after `replace({h: nan}).dropna()` on the horizon column. */
  function OffHorizon(h: int): CasedRow -> bool {
    (r: CasedRow) => Horizon(r.obs) != h
  }

  /** `list(xs) * n`. */
  function Repeat(xs: seq<int>, n: nat): (r: seq<int>)
    ensures |r| == |xs| * n
  {
    if n == 0 then [] else xs + Repeat(xs, n - 1)
  }

  lemma {:induction false} RepeatSingle(x: int, n: nat)
    ensures forall i :: 0 <= i < n ==> Repeat([x], n)[i] == x
  {
    if n > 0 {
      RepeatSingle(x, n - 1);
      assert Repeat([x], n) == [x] + Repeat([x], n - 1);
    }
  }

  /** A list of `a` values repeated `n` times fits `n` rows exactly when `a` is one or there are no rows. */
  lemma RepeatedListFits(a: nat, n: nat)
    requires a >= 1
    ensures a * n == n <==> a == 1 || n == 0
  {
    assert a * n - n == (a - 1) * n;
    if a >= 2 && n > 0 {
      assert (a - 1) * n >= n;
    }
  }

  /** `case_df['arrival_time'] = arrival_time` once the lengths agree. */
  function Stamp(rows: seq<CasedRow>, arrival: seq<int>): seq<ArrivalRow>
    requires |rows| == |arrival|
  {
    seq(|rows|, i requires 0 <= i < |rows| => ArrivalRow(rows[i].obs, rows[i].caseIndex, arrival[i]))
  }

  /** The body of the case loop of `define_actual_time` for the rows of one case. */
  function ResolveCase(rows: seq<CasedRow>): CaseOutcome {
    if HasCollision(rows) || |CaseTelemetry(rows)| == 0 then Skipped
    else
      var minHorizon := MinTelemetryHorizon(rows);
      if minHorizon >= MinForecastHorizonSeconds then Skipped
      else
        var anchors := Filter(rows, AtHorizon(minHorizon));
        var remaining := Filter(rows, OffHorizon(minHorizon));
        var arrival := Repeat(RowForecasts(anchors), |remaining|);
        if |arrival| != |remaining| then Failed
        else Appended(Stamp(remaining, arrival))
  }

  lemma MinTelemetryHorizonIsLeast(rows: seq<CasedRow>)
    requires |CaseTelemetry(rows)| > 0
    ensures exists t :: t in rows && IsTelemetryRow(t) && Horizon(t.obs) == MinTelemetryHorizon(rows)
    ensures forall u :: u in rows && IsTelemetryRow(u) ==> MinTelemetryHorizon(rows) <= Horizon(u.obs)
  {
    var tel := CaseTelemetry(rows);
    var h := RowHorizons(tel);
    var k :| 0 <= k < |h| && h[k] == Min(h);
    assert tel[k] in rows && IsTelemetryRow(tel[k]);
    forall u | u in rows && IsTelemetryRow(u) ensures Min(h) <= Horizon(u.obs) {
      var j :| 0 <= j < |tel| && tel[j] == u;
      assert h[j] in h;
    }
  }

  /** A case is skipped exactly on a collision or when no telemetry forecast was made under two minutes ahead. */
  lemma ResolveCaseSkipsIff(rows: seq<CasedRow>)
    ensures ResolveCase(rows).Skipped? <==>
      HasCollision(rows) ||
      forall t :: t in rows && IsTelemetryRow(t) ==> Horizon(t.obs) >= MinForecastHorizonSeconds
  {
    if !HasCollision(rows) {
      if |CaseTelemetry(rows)| > 0 {
        MinTelemetryHorizonIsLeast(rows);
      }
    }
  }

  /**
   * A case makes the whole group fail exactly when two or more telemetry rows
   * share the minimum horizon and some row of the case has another horizon:
   * the repeated arrival list is then longer than the frame.
   */
  lemma ResolveCaseFailsIff(rows: seq<CasedRow>)
    ensures ResolveCase(rows).Failed? <==>
      !HasCollision(rows) && |CaseTelemetry(rows)| > 0 &&
      MinTelemetryHorizon(rows) < MinForecastHorizonSeconds &&
      (exists i, j :: 0 <= i < j < |rows| &&
         IsTelemetryRow(rows[i]) && Horizon(rows[i].obs) == MinTelemetryHorizon(rows) &&
         IsTelemetryRow(rows[j]) && Horizon(rows[j].obs) == MinTelemetryHorizon(rows)) &&
      (exists k :: 0 <= k < |rows| && Horizon(rows[k].obs) != MinTelemetryHorizon(rows))
  {
    if !HasCollision(rows) && |CaseTelemetry(rows)| > 0 && MinTelemetryHorizon(rows) < MinForecastHorizonSeconds {
      var m := MinTelemetryHorizon(rows);
      var anchors := Filter(rows, AtHorizon(m));
      var remaining := Filter(rows, OffHorizon(m));
      MinTelemetryHorizonIsLeast(rows);
      var t :| t in rows && IsTelemetryRow(t) && Horizon(t.obs) == m;
      assert AtHorizon(m)(t);
      FilterAtLeastTwo(rows, AtHorizon(m));
      FilterNonEmpty(rows, OffHorizon(m));
      RepeatedListFits(|anchors|, |remaining|);
      assert ResolveCase(rows).Failed? <==> |anchors| * |remaining| != |remaining|;
    }
  }

  /**
   * A resolved case emits its rows other than those at the minimum telemetry
   * horizon, every one stamped with the forecast of the telemetry row with the
   * smallest horizon, which lies under two minutes.
   */
  lemma ResolveCaseArrival(rows: seq<CasedRow>)
    requires ResolveCase(rows).Appended?
    ensures |CaseTelemetry(rows)| > 0 && MinTelemetryHorizon(rows) < MinForecastHorizonSeconds
    ensures var frame := ResolveCase(rows).frame;
      forall k :: 0 <= k < |frame| ==>
        CasedRow(frame[k].obs, frame[k].caseIndex) in rows &&
        Horizon(frame[k].obs) != MinTelemetryHorizon(rows) &&
        exists t :: t in rows && IsTelemetryRow(t) && Horizon(t.obs) == MinTelemetryHorizon(rows) &&
          frame[k].arrival == t.obs.forecast
    ensures var frame := ResolveCase(rows).frame;
      forall k, l :: 0 <= k < |frame| && 0 <= l < |frame| ==> frame[k].arrival == frame[l].arrival
  {
    var m := MinTelemetryHorizon(rows);
    var anchors := Filter(rows, AtHorizon(m));
    var remaining := Filter(rows, OffHorizon(m));
    var frame := ResolveCase(rows).frame;
    MinTelemetryHorizonIsLeast(rows);
    var t :| t in rows && IsTelemetryRow(t) && Horizon(t.obs) == m;
    assert t in anchors;
    if |remaining| > 0 {
      RepeatedListFits(|anchors|, |remaining|);
      var a := anchors[0];
      assert a in rows && AtHorizon(m)(a);
      assert RowForecasts(anchors) == [a.obs.forecast];
      RepeatSingle(a.obs.forecast, |remaining|);
      forall k | 0 <= k < |frame|
        ensures CasedRow(frame[k].obs, frame[k].caseIndex) in rows
        ensures Horizon(frame[k].obs) != m
        ensures frame[k].arrival == a.obs.forecast
      {
        assert CasedRow(frame[k].obs, frame[k].caseIndex) == remaining[k];
      }
    }
  }

  /** Every row of a resolved case whose horizon is not the minimum telemetry horizon is emitted. */
  lemma ResolveCaseKeepsRows(rows: seq<CasedRow>)
    requires ResolveCase(rows).Appended?
    ensures |CaseTelemetry(rows)| > 0
    ensures forall r :: r in rows && Horizon(r.obs) != MinTelemetryHorizon(rows) ==>
      exists k :: 0 <= k < |ResolveCase(rows).frame| &&
        ResolveCase(rows).frame[k].obs == r.obs && ResolveCase(rows).frame[k].caseIndex == r.caseIndex
  {
    var m := MinTelemetryHorizon(rows);
    var remaining := Filter(rows, OffHorizon(m));
    var frame := ResolveCase(rows).frame;
    forall r | r in rows && Horizon(r.obs) != m
      ensures exists k :: 0 <= k < |frame| && frame[k].obs == r.obs && frame[k].caseIndex == r.caseIndex
    {
      var i :| 0 <= i < |rows| && rows[i] == r;
      assert OffHorizon(m)(rows[i]);
      var k :| 0 <= k < |remaining| && remaining[k] == r;
      assert frame[k].obs == r.obs;
    }
  }

  // ---------------------------------------------------------------------
  // define_actual_time: all cases of a group
  // ---------------------------------------------------------------------

  function CaseColumn(rows: seq<CasedRow>): seq<nat> {
    seq(|rows|, i requires 0 <= i < |rows| => rows[i].caseIndex)
  }

  function InCase(c: nat): CasedRow -> bool {
    (r: CasedRow) => r.caseIndex == c
  }

  /** `stop_vehicle_df[stop_vehicle_df['case'] == case]`. */
  function RowsOfCase(rows: seq<CasedRow>, c: nat): seq<CasedRow> {
    Filter(rows, InCase(c))
  }

  /** The outcome of every case in `ids`, in order. */
  function CaseOutcomes(rows: seq<CasedRow>, ids: seq<nat>): seq<CaseOutcome> {
    seq(|ids|, k requires 0 <= k < |ids| => ResolveCase(RowsOfCase(rows, ids[k])))
  }

  /**
   * The frames the case loop collects from a sequence of case outcomes. A case
   * whose arrival column does not fit raises, and the exception leaves the
   * whole group.
   */
  function Collect(outcomes: seq<CaseOutcome>): Result<seq<seq<ArrivalRow>>>
    decreases |outcomes|
  {
    if |outcomes| == 0 then Ok([])
    else
      match Collect(outcomes[..|outcomes| - 1])
      case Raised(e) => Raised(e)
      case Ok(frames) =>
        match outcomes[|outcomes| - 1]
        case Skipped => Ok(frames)
        case Failed => Raised(LengthMismatch)
        case Appended(f) => Ok(frames + [f])
  }

  /** The case loop over an enriched group: `None` when no case yields an arrival. */
  function CaseLoop(rows: seq<CasedRow>): Result<Option<seq<ArrivalRow>>> {
    match Collect(CaseOutcomes(rows, Distinct(CaseColumn(rows))))
    case Raised(e) => Raised(e)
    case Ok(frames) => if |frames| > 0 then Ok(Some(Concat(frames))) else Ok(None)
  }

  /** What `define_actual_time` returns for one group. */
  function ActualTimes(group: seq<RawRow>): Result<Option<seq<ArrivalRow>>> {
    match Enriched(Deduplicate(group))
    case Raised(e) => Raised(e)
    case Ok(rows) => CaseLoop(rows)
  }

  /** Once a prefix of the outcomes has raised, the later ones change nothing. */
  lemma {:induction false} RaisedPrefix(outcomes: seq<CaseOutcome>, i: nat)
    requires i <= |outcomes| && Collect(outcomes[..i]).Raised?
    ensures Collect(outcomes) == Collect(outcomes[..i])
    decreases |outcomes|
  {
    if i < |outcomes| {
      var init := outcomes[..|outcomes| - 1];
      assert init[..i] == outcomes[..i];
      RaisedPrefix(init, i);
    } else {
      assert outcomes[..i] == outcomes;
    }
  }

  /** Collecting one more outcome. */
  lemma CollectStep(outcomes: seq<CaseOutcome>, i: nat)
    requires i < |outcomes|
    ensures Collect(outcomes[..i + 1]) ==
      match Collect(outcomes[..i])
      case Raised(e) => Raised(e)
      case Ok(frames) =>
        match outcomes[i]
        case Skipped => Ok(frames)
        case Failed => Raised(LengthMismatch)
        case Appended(f) => Ok(frames + [f])
  {
    assert outcomes[..i + 1][..i] == outcomes[..i];
  }

  method DefineActualTime(group: seq<RawRow>) returns (r: Result<Option<seq<ArrivalRow>>>)
    ensures r == ActualTimes(group)
  {
    var deduplicated := Deduplicate(group);
    var enriched := EnrichWithCasesAndHorizon(deduplicated);
    if enriched.Raised? {
      return Raised(enriched.error);
    }
    var rows := enriched.value;
    var ids := Distinct(CaseColumn(rows));
    ghost var outcomes := CaseOutcomes(rows, ids);
    var frames: seq<seq<ArrivalRow>> := [];
    var i := 0;
    while i < |ids|
      invariant 0 <= i <= |ids|
      invariant Collect(outcomes[..i]) == Ok(frames)
    {
      var outcome := ResolveCase(RowsOfCase(rows, ids[i]));
      CollectStep(outcomes, i);
      assert outcomes[i] == outcome;
      match outcome {
        case Skipped =>
        case Failed =>
          RaisedPrefix(outcomes, i + 1);
          assert outcomes[..|outcomes|] == outcomes;
          return Raised(LengthMismatch);
        case Appended(f) =>
          frames := frames + [f];
      }
      i := i + 1;
    }
    assert outcomes[..|ids|] == outcomes;
    if |frames| > 0 {
      return Ok(Some(Concat(frames)));
    }
    return Ok(None);
  }

  /** The loop raises exactly when one of its cases fails. */
  lemma {:induction false} CollectRaisesIff(outcomes: seq<CaseOutcome>)
    ensures Collect(outcomes).Raised? <==> exists k :: 0 <= k < |outcomes| && outcomes[k].Failed?
    ensures Collect(outcomes).Raised? ==> Collect(outcomes).error == LengthMismatch
    decreases |outcomes|
  {
    if |outcomes| > 0 {
      var n := |outcomes| - 1;
      var init := outcomes[..n];
      CollectRaisesIff(init);
      assert forall k :: 0 <= k < n ==> init[k] == outcomes[k];
    }
  }

  /** The loop collects nothing exactly when every case is skipped. */
  lemma {:induction false} CollectEmptyIff(outcomes: seq<CaseOutcome>)
    ensures Collect(outcomes) == Ok([]) <==> forall k :: 0 <= k < |outcomes| ==> outcomes[k].Skipped?
    decreases |outcomes|
  {
    if |outcomes| > 0 {
      var n := |outcomes| - 1;
      var init := outcomes[..n];
      CollectEmptyIff(init);
      assert forall k :: 0 <= k < n ==> init[k] == outcomes[k];
      if Collect(init).Ok? && outcomes[n].Appended? {
        assert Collect(init).value + [outcomes[n].frame] != [];
      }
    }
  }

  /** The collected frames are exactly those of the cases that resolve. */
  lemma {:induction false} CollectFrames(outcomes: seq<CaseOutcome>, f: seq<ArrivalRow>)
    requires Collect(outcomes).Ok?
    ensures f in Collect(outcomes).value <==> exists k :: 0 <= k < |outcomes| && outcomes[k] == Appended(f)
    decreases |outcomes|
  {
    if |outcomes| > 0 {
      var n := |outcomes| - 1;
      var init := outcomes[..n];
      CollectFrames(init, f);
      assert forall k :: 0 <= k < n ==> init[k] == outcomes[k];
    }
  }

  lemma InRowsOfCase(rows: seq<CasedRow>, c: nat, r: CasedRow)
    ensures r in RowsOfCase(rows, c) <==> r in rows && r.caseIndex == c
  {
    if r in rows && r.caseIndex == c {
      var i :| 0 <= i < |rows| && rows[i] == r;
      assert InCase(c)(rows[i]);
    }
  }

  /** The case loop collects nothing exactly when every case is skipped. */
  lemma CaseLoopEmptyIff(rows: seq<CasedRow>)
    ensures CaseLoop(rows) == Ok(None) <==>
      forall c :: c in CaseColumn(rows) ==> ResolveCase(RowsOfCase(rows, c)).Skipped?
  {
    var ids := Distinct(CaseColumn(rows));
    var outcomes := CaseOutcomes(rows, ids);
    CollectEmptyIff(outcomes);
    assert CaseLoop(rows) == Ok(None) <==> Collect(outcomes) == Ok([]);
    if forall c :: c in CaseColumn(rows) ==> ResolveCase(RowsOfCase(rows, c)).Skipped? {
      forall k | 0 <= k < |outcomes| ensures outcomes[k].Skipped? {
        assert ids[k] in CaseColumn(rows);
      }
    }
    if Collect(outcomes) == Ok([]) {
      forall c | c in CaseColumn(rows) ensures ResolveCase(RowsOfCase(rows, c)).Skipped? {
        var k :| 0 <= k < |ids| && ids[k] == c;
        assert outcomes[k] == ResolveCase(RowsOfCase(rows, c));
      }
    }
  }

  /** The case loop raises exactly when one of the cases fails. */
  lemma CaseLoopRaisesIff(rows: seq<CasedRow>)
    ensures CaseLoop(rows).Raised? <==>
      exists c :: c in CaseColumn(rows) && ResolveCase(RowsOfCase(rows, c)).Failed?
  {
    var ids := Distinct(CaseColumn(rows));
    var outcomes := CaseOutcomes(rows, ids);
    CollectRaisesIff(outcomes);
    assert CaseLoop(rows).Raised? <==> Collect(outcomes).Raised?;
    SomeOutcomeFails(rows, ids, CaseColumn(rows));
  }

  /** Some outcome over `ids` fails exactly when some case of `cases` fails, if both list the same cases. */
  lemma SomeOutcomeFails(rows: seq<CasedRow>, ids: seq<nat>, cases: seq<nat>)
    requires forall c :: c in ids <==> c in cases
    ensures (exists k :: 0 <= k < |ids| && CaseOutcomes(rows, ids)[k].Failed?) <==>
      exists c :: c in cases && ResolveCase(RowsOfCase(rows, c)).Failed?
  {
    var outcomes := CaseOutcomes(rows, ids);
    if exists c :: c in cases && ResolveCase(RowsOfCase(rows, c)).Failed? {
      var c :| c in cases && ResolveCase(RowsOfCase(rows, c)).Failed?;
      var k :| 0 <= k < |ids| && ids[k] == c;
      assert outcomes[k].Failed?;
    }
    if exists k :: 0 <= k < |ids| && outcomes[k].Failed? {
      var k :| 0 <= k < |ids| && outcomes[k].Failed?;
      assert ids[k] in cases;
    }
  }

  /** `define_actual_time` returns `None` exactly when every case of the enriched group is skipped. */
  lemma ActualTimesNoneIff(group: seq<RawRow>)
    ensures ActualTimes(group) == Ok(None) <==>
      Enriched(Deduplicate(group)).Ok? &&
      forall c :: c in CaseColumn(Enriched(Deduplicate(group)).value) ==>
        ResolveCase(RowsOfCase(Enriched(Deduplicate(group)).value, c)).Skipped?
  {
    var enriched := Enriched(Deduplicate(group));
    if enriched.Ok? {
      CaseLoopEmptyIff(enriched.value);
    }
  }

  /**
   * `define_actual_time` raises exactly when enrichment raises or one of the
   * cases has tied anchors and further rows.
   */
  lemma ActualTimesRaisesIff(group: seq<RawRow>)
    ensures ActualTimes(group).Raised? <==>
      Enriched(Deduplicate(group)).Raised? ||
      exists c :: c in CaseColumn(Enriched(Deduplicate(group)).value) &&
        ResolveCase(RowsOfCase(Enriched(Deduplicate(group)).value, c)).Failed?
  {
    var enriched := Enriched(Deduplicate(group));
    if enriched.Ok? {
      CaseLoopRaisesIff(enriched.value);
    }
  }

  /**
   * A row emitted for case `c` is a row of that case, stamped with the
   * forecast of the case's telemetry row with the smallest horizon, which lies
   * under two minutes.
   */
  lemma CaseArrival(rows: seq<CasedRow>, c: nat, a: ArrivalRow)
    requires ResolveCase(RowsOfCase(rows, c)).Appended?
    requires a in ResolveCase(RowsOfCase(rows, c)).frame
    ensures CasedRow(a.obs, a.caseIndex) in rows && a.caseIndex == c
    ensures exists t ::
      t in rows && IsTelemetryRow(t) && t.caseIndex == c &&
      Horizon(t.obs) < MinForecastHorizonSeconds && a.arrival == t.obs.forecast &&
      forall u :: u in rows && IsTelemetryRow(u) && u.caseIndex == c ==> Horizon(t.obs) <= Horizon(u.obs)
  {
    var caseRows := RowsOfCase(rows, c);
    var t := ArrivalAnchor(caseRows, a);
    InRowsOfCase(rows, c, CasedRow(a.obs, a.caseIndex));
    InRowsOfCase(rows, c, t);
    forall u | u in rows && IsTelemetryRow(u) && u.caseIndex == c
      ensures Horizon(t.obs) <= Horizon(u.obs)
    {
      InRowsOfCase(rows, c, u);
    }
  }

  /** The telemetry row whose forecast stamps an emitted row: the one with the smallest horizon. */
  lemma ArrivalAnchor(rows: seq<CasedRow>, a: ArrivalRow) returns (t: CasedRow)
    requires ResolveCase(rows).Appended?
    requires a in ResolveCase(rows).frame
    ensures CasedRow(a.obs, a.caseIndex) in rows
    ensures t in rows && IsTelemetryRow(t) && Horizon(t.obs) < MinForecastHorizonSeconds && a.arrival == t.obs.forecast
    ensures forall u :: u in rows && IsTelemetryRow(u) ==> Horizon(t.obs) <= Horizon(u.obs)
  {
    var frame := ResolveCase(rows).frame;
    ResolveCaseArrival(rows);
    MinTelemetryHorizonIsLeast(rows);
    var p :| 0 <= p < |frame| && frame[p] == a;
    t :| t in rows && IsTelemetryRow(t) && Horizon(t.obs) == MinTelemetryHorizon(rows) && a.arrival == t.obs.forecast;
  }

  /**
   * Every output row is a row of the group, in a case whose telemetry row with
   * the smallest horizon was forecast less than two minutes ahead, and its
   * arrival time is that row's forecast.
   */
  lemma ActualTimesArrival(group: seq<RawRow>, a: ArrivalRow)
    requires ActualTimes(group).Ok? && ActualTimes(group).value.Some?
    requires a in ActualTimes(group).value.value
    ensures Enriched(Deduplicate(group)).Ok?
    ensures exists i :: 0 <= i < |group| && group[i].obs == a.obs
    ensures exists t ::
      t in Enriched(Deduplicate(group)).value && IsTelemetryRow(t) &&
      t.caseIndex == a.caseIndex && Horizon(t.obs) < MinForecastHorizonSeconds &&
      a.arrival == t.obs.forecast &&
      forall u :: u in Enriched(Deduplicate(group)).value && IsTelemetryRow(u) && u.caseIndex == a.caseIndex ==>
        Horizon(t.obs) <= Horizon(u.obs)
  {
    var rows := Enriched(Deduplicate(group)).value;
    var ids := Distinct(CaseColumn(rows));
    var outcomes := CaseOutcomes(rows, ids);
    var frames := Collect(outcomes).value;
    InConcat(frames, a);
    var k :| 0 <= k < |frames| && a in frames[k];
    CollectFrames(outcomes, frames[k]);
    var m :| 0 <= m < |outcomes| && outcomes[m] == Appended(frames[k]);
    CaseArrival(rows, ids[m], a);
    EnrichedRowsFromGroup(Deduplicate(group), CasedRow(a.obs, a.caseIndex));
  }
}
