/**
 * The derived state the dashboard computes on every render: the two
 * location counts of the overview, and the cars at risk by age range.
 */
module Dashboard {
  import opened Wrappers
  import opened Sequences
  import opened Reports
  import opened LatestReports
  import opened JsObject
  import opened RiskAging
  import opened LocationSummary

  /**
   * `Object.values(ultimosReportes)`: the latest report of each car, listed in
   * the property order of the car numbers.
   */
  function LatestValues(reportes: seq<Report>): (vs: seq<Report>)
    ensures forall r :: r in vs <==> r.car in Latest(reportes) && Latest(reportes)[r.car] == r
    ensures Ids(vs) == PropertyOrder(FirstSeen(reportes, |reportes|))
  {
    FirstSeenIsCarIds(reportes);
    LatestEntriesListed(reportes);
    Values(Latest(reportes), FirstSeen(reportes, |reportes|))
  }

  /** Each entry of the latest-report map is the report of the car it is keyed by. */
  lemma LatestKeyedByCar(reportes: seq<Report>)
    ensures forall c :: c in Latest(reportes) ==> Latest(reportes)[c].car == c
  {
    forall c | c in Latest(reportes) ensures Latest(reportes)[c].car == c {
      LatestHoldsFirstReport(reportes, c);
    }
  }

  /** The values of the latest-report object, with the facts `LatestValues` promises. */
  lemma LatestEntriesListed(reportes: seq<Report>)
    ensures forall c :: c in FirstSeen(reportes, |reportes|) ==> c in Latest(reportes)
    ensures forall r :: r in Values(Latest(reportes), FirstSeen(reportes, |reportes|)) <==>
      r.car in Latest(reportes) && Latest(reportes)[r.car] == r
    ensures Ids(Values(Latest(reportes), FirstSeen(reportes, |reportes|))) == PropertyOrder(FirstSeen(reportes, |reportes|))
  {
    var latest, created := Latest(reportes), FirstSeen(reportes, |reportes|);
    FirstSeenIsCarIds(reportes);
    LatestKeyedByCar(reportes);
    var vs := Values(latest, created);
    forall i | 0 <= i < |vs| ensures Ids(vs)[i] == PropertyOrder(created)[i] {
      assert PropertyOrder(created)[i] in created;
    }
  }

  /**
   * `reportesRiesgo`: the latest reports at "Salida Por Tango", in the order
   * of `Object.values`. A report is in it exactly when it is the latest report
   * of its car and is at the risk location; a car whose latest report is
   * "En Tienda" is not in it.
   */
  function RiskList(reportes: seq<Report>): (risk: seq<Report>)
    ensures forall r :: r in risk <==>
      r.car in Latest(reportes) && Latest(reportes)[r.car] == r && r.loc == SalidaPorTango
    ensures Subsequence(risk, LatestValues(reportes))
  {
    AtRisk(LatestValues(reportes))
  }

  /** Every car occurs in the risk list at most once. */
  lemma RiskListDistinct(reportes: seq<Report>)
    ensures Distinct(Ids(RiskList(reportes)))
  {
    var created := FirstSeen(reportes, |reportes|);
    DistinctPermutation(created, PropertyOrder(created));
    AtRiskDistinct(LatestValues(reportes));
  }

  /**
   * When every car number is an array index (0 to 2^32 - 2), `Object.values`
   * lists the cars by increasing number, so the risk list and each age
   * range's list are in increasing car-number order.
   */
  lemma RiskListIncreasing(reportes: seq<Report>, now: int, k: nat)
    requires forall c :: c in CarIds(reportes) ==> IsArrayIndex(c)
    ensures Increasing(Ids(RiskList(reportes)))
    ensures Increasing(InRange(RiskList(reportes), now, k))
  {
    var created := FirstSeen(reportes, |reportes|);
    FirstSeenIsCarIds(reportes);
    PropertyOrderIncreasing(created);
    SubsequenceIds(RiskList(reportes), LatestValues(reportes));
    IncreasingSubsequence(Ids(RiskList(reportes)), PropertyOrder(created));
    IncreasingSubsequence(InRange(RiskList(reportes), now, k), Ids(RiskList(reportes)));
  }

  /**
   * Car `c` belongs in age range `k` at time `now`: its latest report is at
   * "Salida Por Tango" and is `k` ranges old.
   */
  ghost predicate ListedAt(reportes: seq<Report>, now: int, k: nat, c: int)
  {
    c in Latest(reportes) && Latest(reportes)[c].loc == SalidaPorTango &&
    AgeRange(now, Latest(reportes)[c].time) == k
  }

  /**
   * A car is listed in age range `k` exactly when its latest report is at
   * "Salida Por Tango" and is `k` ranges old: the age counts from the latest
   * report, so a new report at the same place starts the age again.
   */
  lemma BucketMembers(reportes: seq<Report>, now: int, k: nat, c: int)
    ensures c in InRange(RiskList(reportes), now, k) <==> ListedAt(reportes, now, k, c)
  {
    var latest := Latest(reportes);
    if c in latest {
      LatestHoldsFirstReport(reportes, c);
    }
  }

  /** The age ranges of the risk list hold exactly the cars that belong there, and all of its cars. */
  lemma RiskListBuckets(reportes: seq<Report>, now: int)
    ensures forall k, c :: c in InRange(RiskList(reportes), now, k) <==> ListedAt(reportes, now, k, c)
    ensures |InRange(RiskList(reportes), now, 0)| + |InRange(RiskList(reportes), now, 1)| +
            |InRange(RiskList(reportes), now, 2)| + |InRange(RiskList(reportes), now, 3)| == |RiskList(reportes)|
  {
    BucketsPartition(RiskList(reportes), now);
    forall k, c ensures c in InRange(RiskList(reportes), now, k) <==> ListedAt(reportes, now, k, c) {
      BucketMembers(reportes, now, k, c);
    }
  }

  /**
   * The bar chart and the detail list at time `now`: `counts` and
   * `cochesPorRango`, computed from `reportes` as the render does.
   */
  method RiskBoard(reportes: seq<Report>, now: int) returns (counts: seq<int>, porRango: seq<seq<int>>)
    ensures |counts| == RangeCount && |porRango| == RangeCount
    ensures forall k, c :: 0 <= k < RangeCount ==> (c in porRango[k] <==> ListedAt(reportes, now, k, c))
    ensures forall k :: 0 <= k < RangeCount ==> porRango[k] == InRange(RiskList(reportes), now, k)
    ensures forall k :: 0 <= k < RangeCount ==> counts[k] == |porRango[k]|
    ensures counts[0] + counts[1] + counts[2] + counts[3] == |RiskList(reportes)|
  {
    var latest, keys := CollectLatest(reportes);
    FirstSeenIsCarIds(reportes);
    counts, porRango := Tally(AtRisk(Values(latest, keys)), now);
    RiskListBuckets(reportes, now);
  }

  /**
   * The derived state of one render at time `now`: the two overview counts
   * of `coches`, and `counts` and `cochesPorRango` for the cars at risk.
   */
  method Derive(reportes: seq<Report>, coches: seq<Car>, now: int)
    returns (enTienda: nat, enRiesgo: nat, counts: seq<int>, porRango: seq<seq<int>>)
    ensures enTienda == CountAt(coches, EnTienda) && enRiesgo == CountAt(coches, SalidaPorTango)
    ensures enTienda + enRiesgo <= |coches|
    ensures |counts| == RangeCount && |porRango| == RangeCount
    ensures forall k, c :: 0 <= k < RangeCount ==> (c in porRango[k] <==> ListedAt(reportes, now, k, c))
    ensures forall k :: 0 <= k < RangeCount ==> porRango[k] == InRange(RiskList(reportes), now, k)
    ensures forall k :: 0 <= k < RangeCount ==> counts[k] == |porRango[k]|
    ensures counts[0] + counts[1] + counts[2] + counts[3] == |RiskList(reportes)|
  {
    enTienda := CountAt(coches, EnTienda);
    enRiesgo := CountAt(coches, SalidaPorTango);
    SummaryBound(coches);
    counts, porRango := RiskBoard(reportes, now);
  }

  /**
   * The age counts from the latest report, not from the arrival at the risk
   * location: a car reported at "Salida Por Tango" at minute 0 and again at
   * minute 3 is, at minute 7, in the "<5 min" range and not in "5-10 min".
   */
  lemma ReReportResetsAge()
    ensures var reportes := [Report(2, 3, 3 * Minute, SalidaPorTango, 1), Report(1, 3, 0, SalidaPorTango, 1)];
      3 in InRange(RiskList(reportes), 7 * Minute, 0) && 3 !in InRange(RiskList(reportes), 7 * Minute, 1)
  {
    var reportes := [Report(2, 3, 3 * Minute, SalidaPorTango, 1), Report(1, 3, 0, SalidaPorTango, 1)];
    assert FirstIndex(reportes, 3) == 0;
    assert reportes[0] in reportes;
    BucketMembers(reportes, 7 * Minute, 0, 3);
    BucketMembers(reportes, 7 * Minute, 1, 3);
  }
}
