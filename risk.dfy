/**
 * The cars at risk and how long ago they were reported there: the `filter`
 * that keeps the latest reports at "Salida Por Tango", and the `forEach` that
 * sorts them into four age ranges, counting them in `counts` and listing their
 * numbers in `cochesPorRango`.
 */
module RiskAging {
  import opened Sequences
  import opened Reports

  /** Milliseconds in a minute: the age is `(now - FechaHora) / 1000 / 60` minutes. */
  const Minute := 60000

  /** Number of age ranges: "<5 min", "5-10 min", "10-60 min", ">60 min". */
  const RangeCount := 4

  /**
   * `.filter((r) => r.Ubicacion === "Salida Por Tango")`: the reports at the
   * risk location, in their order.
   */
  function AtRisk(vals: seq<Report>): (risk: seq<Report>)
    ensures forall r :: r in risk <==> r in vals && r.loc == SalidaPorTango
    ensures Subsequence(risk, vals)
  {
    if vals == [] then []
    else
      var s, r := vals[..|vals| - 1], vals[|vals| - 1];
      assert vals == s + [r];
      var risk := AtRisk(s);
      if r.loc == SalidaPorTango then
        risk + [r]
      else risk
  }

  /**
   * The filter keeps every copy of a report at the risk location and drops
   * every other report: each report occurs in the result exactly as often as
   * in the input when it is at "Salida Por Tango", and not at all otherwise.
   */
  lemma {:induction false} AtRiskCounts(vals: seq<Report>)
    ensures forall r :: multiset(AtRisk(vals))[r] == if r.loc == SalidaPorTango then multiset(vals)[r] else 0
  {
    if vals != [] {
      var s, r := vals[..|vals| - 1], vals[|vals| - 1];
      assert vals == s + [r];
      AtRiskCounts(s);
    }
  }

  /** Filtering keeps car numbers distinct: no car enters the risk list twice. */
  lemma {:induction false} AtRiskDistinct(vals: seq<Report>)
    requires Distinct(Ids(vals))
    ensures Distinct(Ids(AtRisk(vals)))
  {
    if vals != [] {
      var s, r := vals[..|vals| - 1], vals[|vals| - 1];
      assert vals == s + [r];
      assert Ids(s) == Ids(vals)[..|vals| - 1];
      AtRiskDistinct(s);
      var risk := AtRisk(s);
      if r.loc == SalidaPorTango {
        forall i | 0 <= i < |risk| ensures risk[i].car != r.car {
          assert risk[i] in s;
          var j :| 0 <= j < |s| && s[j] == risk[i];
          assert Ids(vals)[j] == risk[i].car;
        }
        assert Ids(AtRisk(vals)) == Ids(risk) + [r.car];
      }
    }
  }

  /**
   * The age range of a report made at `time`, seen at `now`: half-open
   * ranges of elapsed minutes [..5), [5, 10), [10, 60), [60, ..). A report
   * dated after `now` has a negative age and lands in the first range.
   */
  function AgeRange(now: int, time: int): (k: nat)
    ensures k < RangeCount
    ensures k == 0 <==> now - time < 5 * Minute
    ensures k == 1 <==> 5 * Minute <= now - time < 10 * Minute
    ensures k == 2 <==> 10 * Minute <= now - time < 60 * Minute
    ensures k == 3 <==> 60 * Minute <= now - time
  {
    var elapsed := now - time;
    if elapsed < 5 * Minute then 0
    else if elapsed < 10 * Minute then 1
    else if elapsed < 60 * Minute then 2
    else 3
  }

  /** Time only moves a report towards older ranges, never back. */
  lemma AgeRangeMonotonic(now: int, later: int, time: int)
    requires now <= later
    ensures AgeRange(now, time) <= AgeRange(later, time)
  {
  }

  /**
   * The list `cochesPorRango` holds for range `k`: the car number of every
   * report in range `k`, in the order of `risk`.
   */
  function InRange(risk: seq<Report>, now: int, k: nat): (ids: seq<int>)
    ensures forall c :: c in ids <==> exists r :: r in risk && r.car == c && AgeRange(now, r.time) == k
    ensures Subsequence(ids, Ids(risk))
  {
    if risk == [] then []
    else
      var s, r := risk[..|risk| - 1], risk[|risk| - 1];
      assert risk == s + [r];
      assert Ids(risk)[..|risk| - 1] == Ids(s);
      var ids := InRange(s, now, k);
      if AgeRange(now, r.time) == k then ids + [r.car] else ids
  }

  lemma {:induction false} BucketsPartition(risk: seq<Report>, now: int)
    ensures multiset(InRange(risk, now, 0)) + multiset(InRange(risk, now, 1)) +
            multiset(InRange(risk, now, 2)) + multiset(InRange(risk, now, 3)) == multiset(Ids(risk))
    ensures |InRange(risk, now, 0)| + |InRange(risk, now, 1)| +
            |InRange(risk, now, 2)| + |InRange(risk, now, 3)| == |risk|
  {
    if risk != [] {
      var s, r := risk[..|risk| - 1], risk[|risk| - 1];
      assert risk == s + [r];
      assert Ids(risk) == Ids(s) + [r.car];
      BucketsPartition(s, now);
    }
    assert |multiset(Ids(risk))| == |risk|;
  }

  /** When no car occurs twice, each car is listed in exactly one range: the range of its report. */
  lemma ExactlyOneBucket(risk: seq<Report>, now: int, i: nat, k: nat)
    requires Distinct(Ids(risk)) && i < |risk|
    ensures risk[i].car in InRange(risk, now, k) <==> k == AgeRange(now, risk[i].time)
  {
    if risk[i].car in InRange(risk, now, k) {
      var r :| r in risk && r.car == risk[i].car && AgeRange(now, r.time) == k;
      var j :| 0 <= j < |risk| && risk[j] == r;
      assert Ids(risk)[j] == Ids(risk)[i];
    } else {
      assert risk[i] in risk;
    }
  }

  lemma {:induction false} SubsequenceIds(a: seq<Report>, b: seq<Report>)
    requires Subsequence(a, b)
    ensures Subsequence(Ids(a), Ids(b))
    decreases |b|
  {
    if a != [] {
      var a', b' := a[..|a| - 1], b[..|b| - 1];
      assert Ids(a)[..|a| - 1] == Ids(a') && Ids(b)[..|b| - 1] == Ids(b');
      if a[|a| - 1] == b[|b| - 1] && Subsequence(a', b') {
        SubsequenceIds(a', b');
      } else {
        SubsequenceIds(a, b');
      }
    }
  }

  /**
   * The `forEach` over the risk reports: for each one, increments the
   * counter of its age range and appends its car number to that range's list.
   * Returns the final `counts` and `cochesPorRango`, range by range.
   */
  method Tally(risk: seq<Report>, now: int) returns (counts: seq<int>, porRango: seq<seq<int>>)
    ensures |counts| == RangeCount && |porRango| == RangeCount
    ensures forall k :: 0 <= k < RangeCount ==> porRango[k] == InRange(risk, now, k)
    ensures forall k :: 0 <= k < RangeCount ==> counts[k] == |porRango[k]|
  {
    var c := new int[RangeCount](_ => 0);
    var lists := new seq<int>[RangeCount](_ => []);
    for i := 0 to |risk|
      invariant forall k :: 0 <= k < RangeCount ==> lists[k] == InRange(risk[..i], now, k)
      invariant forall k :: 0 <= k < RangeCount ==> c[k] == |lists[k]|
    {
      var r := risk[i];
      assert risk[..i + 1][..i] == risk[..i];
      var k := AgeRange(now, r.time);
      c[k] := c[k] + 1;
      lists[k] := lists[k] + [r.car];
    }
    assert risk[..|risk|] == risk;
    counts, porRango := c[..], lists[..];
  }
}
