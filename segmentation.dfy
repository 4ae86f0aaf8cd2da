/**
 * Case segmentation: the scheduled rows of one (vehicle, direction, stop)
 * group, sorted by forecast time, are split into cases (waiting episodes).
 * The first row opens case 0; every later row stays in the case of the row
 * before it unless its forecast lies at least ten minutes after that row's,
 * in which case it opens the next case. The same loop appears in
 * examples/1_assign_actual_arrival_time.py and in mostra/preprocessing.py.
 */
module Segmentation {
  import opened Collections
  import opened Rows

  /** `SINGLE_CASE_SECONDS_THRESHOLD`. */
  const SingleCaseSecondsThreshold: int := 10 * 60

  /** Position `i` of the forecast column starts a new case. */
  predicate OpensCase(f: seq<int>, i: int)
    requires 0 < i < |f|
  {
    f[i] - f[i - 1] >= SingleCaseSecondsThreshold
  }

  /** The case index of position `i`: the number of case openings up to `i`. */
  function CaseOf(f: seq<int>, i: nat): (c: nat)
    requires i < |f|
    ensures c <= i
    decreases i
  {
    if i == 0 then 0 else CaseOf(f, i - 1) + (if OpensCase(f, i) then 1 else 0)
  }

  function CaseIndices(f: seq<int>): seq<nat> {
    seq(|f|, i requires 0 <= i < |f| => CaseOf(f, i))
  }

  /** The labelling loop, as written: `row_id`, `current_time_batch`, `time_batches`. */
  method Segment(scheduled: seq<Observation>) returns (cases: seq<nat>)
    ensures |cases| == |scheduled|
    ensures |cases| > 0 ==> cases[0] == 0
    ensures forall i :: 0 < i < |cases| ==>
      cases[i] == cases[i - 1] +
        (if scheduled[i].forecast - scheduled[i - 1].forecast >= SingleCaseSecondsThreshold then 1 else 0)
    ensures cases == CaseIndices(Forecasts(scheduled))
  {
    ghost var f := Forecasts(scheduled);
    var rowId := 0;
    var currentTimeBatch := 0;
    cases := [];
    while rowId < |scheduled|
      invariant 0 <= rowId <= |scheduled|
      invariant |cases| == rowId
      invariant cases == CaseIndices(f)[..rowId]
      invariant rowId == 0 ==> currentTimeBatch == 0
      invariant rowId > 0 ==> currentTimeBatch == CaseOf(f, rowId - 1)
    {
      assert CaseIndices(f)[..rowId + 1] == CaseIndices(f)[..rowId] + [CaseOf(f, rowId)];
      if rowId == 0 {
        rowId := rowId + 1;
        cases := cases + [currentTimeBatch];
        continue;
      }
      var timeDiff := scheduled[rowId].forecast - scheduled[rowId - 1].forecast;
      assert timeDiff == f[rowId] - f[rowId - 1];
      if timeDiff >= SingleCaseSecondsThreshold {
        currentTimeBatch := currentTimeBatch + 1;
      }
      assert currentTimeBatch == CaseOf(f, rowId);
      cases := cases + [currentTimeBatch];
      rowId := rowId + 1;
    }
    assert CaseIndices(f)[..rowId] == CaseIndices(f);
    CaseIndicesSteps(scheduled);
  }

  /** The case column of sorted scheduled rows, stated row by row on their forecast gaps. */
  lemma CaseIndicesSteps(scheduled: seq<Observation>)
    ensures var cases := CaseIndices(Forecasts(scheduled));
      && (|cases| > 0 ==> cases[0] == 0)
      && forall i :: 0 < i < |cases| ==>
        cases[i] == cases[i - 1] +
          (if scheduled[i].forecast - scheduled[i - 1].forecast >= SingleCaseSecondsThreshold then 1 else 0)
  {
    var f := Forecasts(scheduled);
    forall i | 0 < i < |f|
      ensures CaseOf(f, i) == CaseOf(f, i - 1) +
        (if scheduled[i].forecast - scheduled[i - 1].forecast >= SingleCaseSecondsThreshold then 1 else 0)
    {
      assert f[i] == scheduled[i].forecast && f[i - 1] == scheduled[i - 1].forecast;
    }
  }

  /** Case indices never decrease along the sorted rows. */
  lemma {:induction false} CaseOfMonotone(f: seq<int>, i: nat, j: nat)
    requires i <= j < |f|
    ensures CaseOf(f, i) <= CaseOf(f, j)
    decreases j
  {
    if i < j {
      CaseOfMonotone(f, i, j - 1);
    }
  }

  /** Two positions share a case exactly when no case opens between them. */
  lemma {:induction false} SameCaseIffNoOpening(f: seq<int>, i: nat, j: nat)
    requires i <= j < |f|
    ensures CaseOf(f, i) == CaseOf(f, j) <==> forall k :: i < k <= j ==> !OpensCase(f, k)
    decreases j
  {
    if i < j {
      SameCaseIffNoOpening(f, i, j - 1);
      CaseOfMonotone(f, i, j - 1);
    }
  }

  /** Every index from 0 to the last case index is the case of some row. */
  lemma {:induction false} CaseOfCovers(f: seq<int>, n: nat, k: nat)
    requires n < |f| && k <= CaseOf(f, n)
    ensures exists i :: 0 <= i <= n && CaseOf(f, i) == k
    decreases n
  {
    if k < CaseOf(f, n) {
      CaseOfCovers(f, n - 1, k);
    }
  }

  /** On ascending forecasts, rows in different cases lie at least ten minutes apart. */
  lemma {:induction false} DifferentCasesAreFarApart(f: seq<int>, i: nat, j: nat)
    requires SortedWith(f, IntLe)
    requires i <= j < |f| && CaseOf(f, i) < CaseOf(f, j)
    ensures f[j] - f[i] >= SingleCaseSecondsThreshold
    decreases j
  {
    CaseOfMonotone(f, i, j - 1);
    if CaseOf(f, i) < CaseOf(f, j - 1) {
      DifferentCasesAreFarApart(f, i, j - 1);
      assert IntLe(f[j - 1], f[j]);
    } else if i < j - 1 {
      assert IntLe(f[i], f[j - 1]);
    }
  }

  lemma ForecastsSorted(s: seq<Observation>)
    requires SortedWith(s, ByForecast)
    ensures SortedWith(Forecasts(s), IntLe)
  {
    var f := Forecasts(s);
    forall i, j | 0 <= i < j < |f| ensures IntLe(f[i], f[j]) {
      assert ByForecast(s[i], s[j]);
    }
  }

  lemma ForecastsAppend(a: seq<Observation>, b: seq<Observation>)
    ensures Forecasts(a + b) == Forecasts(a) + Forecasts(b)
  {
  }

  /** Rearranging rows rearranges their forecast column the same way. */
  lemma {:induction false} ForecastsMultiset(s1: seq<Observation>, s2: seq<Observation>)
    requires multiset(s1) == multiset(s2)
    ensures multiset(Forecasts(s1)) == multiset(Forecasts(s2))
    decreases |s1|
  {
    if |s1| > 0 {
      var n := |s1| - 1;
      var x := s1[n];
      assert x in multiset(s2);
      var k :| 0 <= k < |s2| && s2[k] == x;
      var rest := s2[..k] + s2[k + 1..];
      assert s2 == s2[..k] + [x] + s2[k + 1..];
      assert s1 == s1[..n] + [x];
      assert multiset(s1) == multiset(s1[..n]) + multiset{x};
      assert multiset(s2) == multiset(s2[..k]) + multiset{x} + multiset(s2[k + 1..]);
      assert multiset(rest) == multiset(s2[..k]) + multiset(s2[k + 1..]);
      assert multiset(s1[..n]) == multiset(s1) - multiset{x};
      assert multiset(rest) == multiset(s2) - multiset{x};
      ForecastsMultiset(s1[..n], rest);
      ForecastsAppend(s1[..n], [x]);
      ForecastsAppend(s2[..k] + [x], s2[k + 1..]);
      ForecastsAppend(s2[..k], [x]);
      ForecastsAppend(s2[..k], s2[k + 1..]);
    }
  }

  lemma SortedHeadIsLeast(a: seq<int>, x: int)
    requires SortedWith(a, IntLe) && x in a
    ensures a[0] <= x
  {
    var i :| 0 <= i < |a| && a[i] == x;
    if i > 0 {
      assert IntLe(a[0], a[i]);
    }
  }

  lemma SortedTail(a: seq<int>)
    requires SortedWith(a, IntLe) && |a| > 0
    ensures SortedWith(a[1..], IntLe)
  {
    forall p, q | 0 <= p < q < |a[1..]| ensures IntLe(a[1..][p], a[1..][q]) {
      assert IntLe(a[p + 1], a[q + 1]);
    }
  }

  /** Two ascending orders of the same forecast values are the same sequence. */
  lemma {:induction false} SortedIntsUnique(a: seq<int>, b: seq<int>)
    requires SortedWith(a, IntLe) && SortedWith(b, IntLe)
    requires multiset(a) == multiset(b)
    ensures a == b
    decreases |a|
  {
    assert |a| == |b| by {
      assert |a| == |multiset(a)|;
      assert |b| == |multiset(b)|;
    }
    if |a| > 0 {
      assert a[0] in b by {
        assert a[0] in multiset(a);
      }
      assert b[0] in a by {
        assert b[0] in multiset(b);
      }
      SortedHeadIsLeast(b, a[0]);
      SortedHeadIsLeast(a, b[0]);
      assert a[0] == b[0];
      assert multiset(a[1..]) == multiset(b[1..]) by {
        assert a == [a[0]] + a[1..] && b == [b[0]] + b[1..];
        assert multiset(a[1..]) == multiset(a) - multiset{a[0]};
        assert multiset(b[1..]) == multiset(b) - multiset{b[0]};
      }
      SortedTail(a);
      SortedTail(b);
      SortedIntsUnique(a[1..], b[1..]);
    }
  }

  /**
   * The sort by forecast time is not stable in the source, so rows with
   * equal forecast times may come out in any order. Whatever that order, every
   * scheduled row receives the same case index.
   */
  lemma CaseIndependentOfTieOrder(s1: seq<Observation>, s2: seq<Observation>, i: nat, j: nat)
    requires SortedWith(s1, ByForecast) && SortedWith(s2, ByForecast)
    requires multiset(s1) == multiset(s2)
    requires i < |s1| && j < |s2| && s1[i] == s2[j]
    ensures CaseOf(Forecasts(s1), i) == CaseOf(Forecasts(s2), j)
  {
    ForecastsSorted(s1);
    ForecastsSorted(s2);
    ForecastsMultiset(s1, s2);
    SortedIntsUnique(Forecasts(s1), Forecasts(s2));
    var f := Forecasts(s1);
    assert f[i] == f[j];
    if i < j && CaseOf(f, i) != CaseOf(f, j) {
      CaseOfMonotone(f, i, j);
      DifferentCasesAreFarApart(f, i, j);
    } else if j < i && CaseOf(f, i) != CaseOf(f, j) {
      CaseOfMonotone(f, j, i);
      DifferentCasesAreFarApart(f, j, i);
    }
  }

  /** Labels that start at 0 and grow by at most one from row to row. */
  ghost predicate Stepwise(c: seq<int>) {
    && (|c| > 0 ==> c[0] == 0)
    && (forall i :: 0 < i < |c| ==> c[i] == c[i - 1] || c[i] == c[i - 1] + 1)
  }

  function CaseRange(n: nat): (r: seq<int>)
    ensures |r| == n
    ensures forall i :: 0 <= i < n ==> r[i] == i
  {
    seq(n, i requires 0 <= i < n => i)
  }

  lemma CaseIndicesStepwise(f: seq<int>)
    ensures Stepwise(CaseIndices(f))
  {
  }

  /** The distinct labels of a stepwise labelling are 0, 1, ..., last label, in that order. */
  lemma {:induction false} DistinctStepwise(c: seq<int>)
    requires |c| > 0 && Stepwise(c)
    ensures c[|c| - 1] >= 0
    ensures Distinct(c) == CaseRange(c[|c| - 1] + 1)
    decreases |c|
  {
    var n := |c|;
    if n == 1 {
      assert Distinct(c) == Distinct(c[..0]) + [c[0]];
    } else {
      var init := c[..n - 1];
      assert Stepwise(init) by {
        forall i | 0 < i < |init| ensures init[i] == init[i - 1] || init[i] == init[i - 1] + 1 {
          assert init[i] == c[i] && init[i - 1] == c[i - 1];
        }
      }
      DistinctStepwise(init);
      assert init[|init| - 1] == c[n - 2];
      var prev := CaseRange(c[n - 2] + 1);
      if c[n - 1] == c[n - 2] {
        assert c[n - 1] in prev;
      } else {
        assert c[n - 1] !in prev;
        assert prev + [c[n - 1]] == CaseRange(c[n - 1] + 1);
      }
    }
  }

  lemma CaseRangeSorted(n: nat)
    ensures SortedWith(CaseRange(n), IntLe)
  {
  }

  /** Sorting the distinct labels of a stepwise labelling changes nothing. */
  lemma SortedDistinctStepwise(c: seq<int>)
    requires |c| > 0 && Stepwise(c)
    ensures c[|c| - 1] >= 0
    ensures SortInts(Distinct(c)) == CaseRange(c[|c| - 1] + 1)
  {
    DistinctStepwise(c);
    CaseRangeSorted(c[|c| - 1] + 1);
    SortedIntsUnique(SortInts(Distinct(c)), Distinct(c));
  }

  /** The number of consecutive forecasts at least ten minutes apart. */
  function GapCount(f: seq<int>): nat
    decreases |f|
  {
    if |f| <= 1 then 0
    else GapCount(f[..|f| - 1]) + (if f[|f| - 1] - f[|f| - 2] >= SingleCaseSecondsThreshold then 1 else 0)
  }

  /** Case labels of a prefix do not depend on the rows after it. */
  lemma {:induction false} CaseOfPrefix(f: seq<int>, m: nat, i: nat)
    requires i < m <= |f|
    ensures CaseOf(f[..m], i) == CaseOf(f, i)
    decreases i
  {
    if i > 0 {
      CaseOfPrefix(f, m, i - 1);
      assert f[..m][i] == f[i] && f[..m][i - 1] == f[i - 1];
    }
  }

  /** The last case label counts the gaps: there are `1 + GapCount` cases. */
  lemma {:induction false} LastCaseIsGapCount(f: seq<int>)
    requires |f| > 0
    ensures CaseOf(f, |f| - 1) == GapCount(f)
    decreases |f|
  {
    var n := |f|;
    if n > 1 {
      var init := f[..n - 1];
      LastCaseIsGapCount(init);
      CaseOfPrefix(f, n - 1, n - 2);
    }
  }
}
