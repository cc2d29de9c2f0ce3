/** The search box: `handleBuscar`. */
module Lookup {
  import opened Wrappers
  import opened Reports
  import opened LatestReports

  /**
   * The result shown for the search box: nothing for an empty box, otherwise
   * the first report in `reportes` for that car number, or nothing when no
   * report names it. `None` for `query` stands for the empty input.
   */
  function Search(reportes: seq<Report>, query: Option<int>): (found: Option<Report>)
    ensures query.None? ==> found.None?
    ensures query.Some? ==> (found.Some? <==> query.value in CarIds(reportes))
    ensures found.Some? ==> query.Some? && IsFirstFor(reportes, query.value, found.value)
  {
    match query
    case None => None
    case Some(car) => Find(reportes, car)
  }

  /**
   * The search shows the same report the dashboard keeps as that car's latest,
   * and finds nothing exactly for the cars the dashboard has no entry for.
   */
  lemma SearchAgreesWithLatest(reportes: seq<Report>, car: int)
    ensures Search(reportes, Some(car)) ==
      if car in Latest(reportes) then Some(Latest(reportes)[car]) else None
  {
    LatestHoldsFirstReport(reportes, car);
  }

  /** With `reportes` newest first, a search finds one of the car's newest reports. */
  lemma SearchFindsNewest(reportes: seq<Report>, car: int, r: Report)
    requires forall i, j :: 0 <= i < j < |reportes| ==> reportes[i].time >= reportes[j].time
    requires r in reportes && r.car == car
    ensures Search(reportes, Some(car)).Some?
    ensures r.time <= Search(reportes, Some(car)).value.time
  {
    LatestHoldsFirstReport(reportes, car);
    LatestIsNewest(reportes, car, r);
  }
}
