# CochesPVLM dashboard: derived state

CochesPVLM tracks where each car of a fleet is. Each car is either "En Tienda"
(in the shop) or "Salida Por Tango" (out through the Tango exit, the risk
location). Each `Reportes` row holds an id assigned by the store
(`idReporte`), a car number (`IdCoche`), the time the app saved it
(`FechaHora`), a location (`Ubicacion`) and `NCPU`, which the app always sets
to 1.
Each render of the dashboard derives its state from the list of reports,
fetched newest first, and from the `Coches` table. This project models that
derived state and proves properties of it:

- **Overview counts.** The number of cars whose current location is
  "En Tienda", and the number whose current location is "Salida Por Tango"
  (`LocationSummary`).
- **Latest report per car.** A `reduce` over `reportes` builds an object keyed
  by `IdCoche`. It keeps the first report it meets for each car and never
  overwrites it (`LatestReports`). `Object.values` then lists that object in
  JavaScript property order (`JsObject`).
- **Risk list.** The latest reports whose location is "Salida Por Tango"
  (`RiskAging.AtRisk`, `Dashboard.RiskList`).
- **Age ranges.** A `forEach` over the risk list puts each car into one of four
  ranges: "<5 min", "5-10 min", "10-60 min" and ">60 min". Age is measured
  from the timestamp of the car's latest report. The loop fills `counts` and
  `cochesPorRango` (`RiskAging.Tally`, `Dashboard.RiskBoard`).
- **Search box.** `handleBuscar` shows the first report in `reportes` for the
  car number typed in (`Lookup.Search`).

Representation choices:

- Times are integer milliseconds. `diffMin < k` becomes `now - time < k * 60000`,
  which is exact for integer milliseconds.
- The two locations are the datatype `Loc`. A `Coches` row whose
  `UbicacionActual` is null, or any other string, has `current == None`.
- An empty search box is the query `None`.
- The reduce and the bucketing loop are methods with loops. Each is proved
  equal to a specification function (`Latest`/`FirstSeen`, `InRange`), and the
  dashboard's properties are proved about those functions.

Four behaviours of the code that a reader might expect otherwise, which the
model keeps as the code has them:

- **No tie-break.** A car's current report is the first one in the fetched
  list. Two reports with the same timestamp are taken in the order the store
  returns them.
- **Age restarts on every report.** Age is counted from the latest report, not
  from when the car entered the risk location. A new report at "Salida Por
  Tango" therefore starts the car's age again (`Dashboard.ReReportResetsAge`).
- **No clamping.** A report timestamped after `now` has a negative elapsed time
  and falls in "<5 min", because the first test `diffMin < 5` accepts it.
- **Order within a range is the `Object.values` order.** Car numbers that are
  array indices come first, in increasing order; other keys follow in creation
  order. The order is not a sort by car number in general.

## Model

| member | source | states |
|---|---|---|
| Reports.FirstIndex | CochesPVLM/src/App.jsx:114 | the position returned is a report for the car and no earlier report names it; it is the length of the list when there is none |
| Reports.FirstIndexFound | CochesPVLM/src/App.jsx:114 | a first report exists exactly when some report names the car |
| Reports.Find | CochesPVLM/src/App.jsx:114 | `find` returns nothing exactly when no report names the car, otherwise the first report for it in list order |
| LatestReports.Latest | CochesPVLM/src/App.jsx:145-148 | the accumulated object has a key for exactly the cars that occur in `reportes` |
| LatestReports.FirstIndexConcat | CochesPVLM/src/App.jsx:145-148 | appending reports does not move a car's first report, and a new car's first report lies in the appended part |
| LatestReports.LatestHoldsFirstReport | CochesPVLM/src/App.jsx:109-116 | the entry kept for a car is its first report, the same report `find` returns |
| LatestReports.FirstSeen | CochesPVLM/src/App.jsx:145-148 | keys created after n reports: exactly the cars whose first report is among them, each once, in the order of their first reports |
| LatestReports.FirstSeenIsCarIds | CochesPVLM/src/App.jsx:145-148 | after all reports the created keys are exactly the cars that occur |
| LatestReports.LatestNeverOverwritten | CochesPVLM/src/App.jsx:146 | more reports only add keys; an entry once set is never replaced |
| LatestReports.LatestIsNewest | CochesPVLM/src/App.jsx:31 | with reports in descending FechaHora order, no report of a car is newer than the one kept for it |
| LatestReports.LatestUnique | CochesPVLM/src/App.jsx:145-148 | a map with exactly these keys and first-report entries is the reference result |
| LatestReports.AccumulateStep | CochesPVLM/src/App.jsx:146 | one reduce step: the report's car is skipped when already present and added with that report otherwise, which keeps the accumulator invariant |
| LatestReports.CollectLatest | CochesPVLM/src/App.jsx:145-148 | the loop's final object equals `Latest(reportes)` and its key creation order equals `FirstSeen` |
| JsObject.Keep | CochesPVLM/src/App.jsx:149 | keeps exactly the keys that are, or are not, array indices |
| JsObject.KeepSplits | CochesPVLM/src/App.jsx:149 | index keys and other keys partition the key list as a multiset |
| JsObject.Insert | CochesPVLM/src/App.jsx:149 | inserting into an ascending list keeps it ascending and adds exactly one occurrence |
| JsObject.Sort | CochesPVLM/src/App.jsx:149 | the index keys in ascending order, as a permutation of the input |
| JsObject.PropertyOrder | CochesPVLM/src/App.jsx:149 | `Object.values` order: a permutation of the creation order, with array-index keys first and ascending and the other keys after them in creation order |
| JsObject.PropertyOrderIncreasing | CochesPVLM/src/App.jsx:149 | when all keys are distinct array indices, the property order is strictly increasing |
| JsObject.Values | CochesPVLM/src/App.jsx:149 | `Object.values`: one value per key, taken key by key in property order; the entry of every key occurs in it, and every value in it is the entry of some key |
| RiskAging.AtRisk | CochesPVLM/src/App.jsx:149-151 | the filter keeps exactly the reports at "Salida Por Tango", in their original order |
| RiskAging.AtRiskCounts | CochesPVLM/src/App.jsx:149-151 | the filter keeps every copy of a report at "Salida Por Tango" and drops every other report: each report occurs exactly as often as in the input, or not at all |
| RiskAging.AtRiskDistinct | CochesPVLM/src/App.jsx:149-151 | filtering a list with distinct car numbers leaves them distinct |
| RiskAging.AgeRange | CochesPVLM/src/App.jsx:157-170 | range 0 for less than 5 minutes (including negative ages), 1 for [5, 10), 2 for [10, 60), 3 for 60 minutes or more |
| RiskAging.AgeRangeMonotonic | CochesPVLM/src/App.jsx:157-170 | as time passes a report's range never decreases |
| RiskAging.InRange | CochesPVLM/src/App.jsx:153-171 | a car is in range k's list exactly when a risk report for it is k ranges old; the list keeps the risk list's order |
| RiskAging.BucketsPartition | CochesPVLM/src/App.jsx:153-171 | the four lists together hold every risk car exactly as often as the risk list does; the counts sum to its length |
| RiskAging.ExactlyOneBucket | CochesPVLM/src/App.jsx:158-170 | with distinct car numbers each car is in exactly one range: the range of its report |
| RiskAging.SubsequenceIds | CochesPVLM/src/App.jsx:149-151 | filtering reports filters their car numbers the same way |
| RiskAging.Tally | CochesPVLM/src/App.jsx:153-171 | the loop leaves each range's list equal to `InRange` and each counter equal to its list's length |
| LocationSummary.CountAt | CochesPVLM/src/App.jsx:126-127 | the count is at most the number of cars; it is zero exactly when no car is there and full exactly when every car is |
| LocationSummary.CountAtIsOccurrences | CochesPVLM/src/App.jsx:126-127 | the count is the number of rows whose `UbicacionActual` is that location |
| LocationSummary.SummaryBound | CochesPVLM/src/App.jsx:126-127 | the two pie counts sum to at most the number of cars, with equality exactly when every car has one of the two locations |
| Lookup.Search | CochesPVLM/src/App.jsx:109-116 | an empty box shows nothing; otherwise the result is found exactly when some report names the car, and it is the first such report |
| Lookup.SearchAgreesWithLatest | CochesPVLM/src/App.jsx:109-116 | the search shows the same report the dashboard keeps as that car's latest |
| Lookup.SearchFindsNewest | CochesPVLM/src/App.jsx:31 | with reports newest first, the search finds one of the car's newest reports |
| Dashboard.LatestKeyedByCar | CochesPVLM/src/App.jsx:145-148 | each entry of the accumulated object is a report of the car it is keyed by |
| Dashboard.LatestEntriesListed | CochesPVLM/src/App.jsx:145-149 | the values of the accumulated object are exactly its entries, and their car numbers are its keys in property order |
| Dashboard.LatestValues | CochesPVLM/src/App.jsx:149 | `Object.values(ultimosReportes)`: a report is in it exactly when it is the entry kept for its car, and the car numbers come in the property order of the keys |
| Dashboard.RiskList | CochesPVLM/src/App.jsx:149-151 | `reportesRiesgo`: a report is in it exactly when it is its car's latest report and is at "Salida Por Tango" (a car whose latest report is "En Tienda" is absent), and it keeps the order of `Object.values` |
| Dashboard.RiskListDistinct | CochesPVLM/src/App.jsx:145-151 | no car is at risk twice |
| Dashboard.RiskListIncreasing | CochesPVLM/src/App.jsx:149-171 | when all car numbers are array indices, the risk list and every range list are in strictly increasing car-number order |
| Dashboard.BucketMembers | CochesPVLM/src/App.jsx:145-171 | a car is listed in range k exactly when its latest report is at "Salida Por Tango" and k ranges old |
| Dashboard.RiskListBuckets | CochesPVLM/src/App.jsx:145-171 | the same for all ranges at once, and the four lists together are as long as the risk list |
| Dashboard.RiskBoard | CochesPVLM/src/App.jsx:144-171 | `counts` and `cochesPorRango`: each range's list is exactly `InRange` of the risk list (the car numbers pushed, in push order), holding exactly the cars listed at that range, each counter the length of its list, and the counters summing to the number of cars at risk |
| Dashboard.Derive | CochesPVLM/src/App.jsx:126-171 | one render: the two pie counts (their sum is at most the number of cars) and the bar chart and detail lists as in `RiskBoard`, each list exact and in push order |
| Dashboard.ReReportResetsAge | CochesPVLM/src/App.jsx:145-170 | a car reported at "Salida Por Tango" at minute 0 and again at minute 3 is in "<5 min" at minute 7, not in "5-10 min" |

## Left out

- Reading and writing Supabase (`fetchReportes`, `fetchCoches`, `handleGuardar`) is I/O. `reportes` and `coches` are parameters, and the descending FechaHora order of the fetch is a precondition where it matters.
- The realtime subscription and its re-fetches are left out. Each render is modelled as a pure function of the lists it sees, so duplicate notifications cannot change the result.
- React state, the input handlers and the rendering (Chart.js pie and bar data, labels, colours) are UI. Only the numbers and lists they display are modelled.
- `new Date()` becomes the parameter `now`.
- Parsing `FechaHora` is left out: timestamps are integer milliseconds.
- RiskAging.AgeRange: compares exact integer milliseconds against 5, 10 and 60 minutes. The floating-point division by 1000 and then by 60 is replaced by this exact comparison. Near the three thresholds, an age in whole milliseconds is far from any value where the division's rounding could change the outcome.
- Lookup.Search: the query is an integer or nothing. `Number()` applied to non-numeric or fractional text (NaN, which matches no car, or a non-integer value) is not modelled.
- Car numbers are integers. JavaScript's conversion of numeric keys to property-name strings is modelled only through the array-index rule of `Object.values` order. Negative, fractional and huge numbers fall outside that rule and are kept in creation order.
- A `Coches` row whose `UbicacionActual` is neither location is modelled as `None`. The text of such a value is not modelled.
- The code does not track when a car arrived at its location, does not break timestamp ties, does not clamp negative ages and does not sort car numbers; the model has none of these either.
