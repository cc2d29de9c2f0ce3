/**
 * Rows of the two tables the dashboard reads: `Reportes` (the location
 * history, one row per report filed) and `Coches` (one row per car with its
 * current location), and the first-match search both the latest-report
 * reduction and the search box rely on.
 */
module Reports {
  import opened Wrappers
  import opened Sequences

  /** The two location names the form offers: "En Tienda" and "Salida Por Tango". */
  datatype Loc = EnTienda | SalidaPorTango

  /**
   * One row of `Reportes`: idReporte, IdCoche, FechaHora (milliseconds since
   * the epoch), Ubicacion and NCPU.
   */
  datatype Report = Report(id: int, car: int, time: int, loc: Loc, ncpu: int)

  /**
   * One row of `Coches`: idCoche and UbicacionActual. `None` stands for any
   * UbicacionActual that is neither of the two names (null, for instance).
   */
  datatype Car = Car(carId: int, current: Option<Loc>)

  /** Every IdCoche that occurs in the reports. */
  function CarIds(rs: seq<Report>): set<int>
  {
    set r | r in rs :: r.car
  }

  /** The IdCoche of each report, in order. */
  function Ids(rs: seq<Report>): (ids: seq<int>)
    ensures |ids| == |rs|
    ensures forall i :: 0 <= i < |rs| ==> ids[i] == rs[i].car
  {
    seq(|rs|, i requires 0 <= i < |rs| => rs[i].car)
  }

  /** `r` is the first report of `rs`, in list order, whose IdCoche is `car`. */
  ghost predicate IsFirstFor(rs: seq<Report>, car: int, r: Report)
  {
    r.car == car &&
    exists i :: 0 <= i < |rs| && rs[i] == r && forall j :: 0 <= j < i ==> rs[j].car != car
  }

  /**
   * Position of the first report for `car`, or |rs| when there is none.
   */
  function FirstIndex(rs: seq<Report>, car: int): (i: nat)
    ensures i <= |rs|
    ensures i < |rs| ==> rs[i].car == car
    ensures forall j :: 0 <= j < i ==> rs[j].car != car
  {
    if rs == [] then 0
    else if rs[0].car == car then 0
    else 1 + FirstIndex(rs[1..], car)
  }

  /** A car has a first report exactly when some report names it. */
  lemma FirstIndexFound(rs: seq<Report>, car: int)
    ensures FirstIndex(rs, car) < |rs| <==> car in CarIds(rs)
  {
    var i := FirstIndex(rs, car);
    if i < |rs| {
      assert rs[i] in rs;
    }
  }

  /**
   * `reportes.find((r) => r.IdCoche === car)`: the first report for `car`,
   * or nothing when no report names it.
   */
  function Find(rs: seq<Report>, car: int): (found: Option<Report>)
    ensures found.None? <==> car !in CarIds(rs)
    ensures found.Some? ==> IsFirstFor(rs, car, found.value)
  {
    var i := FirstIndex(rs, car);
    FirstIndexFound(rs, car);
    if i < |rs| then Some(rs[i]) else None
  }
}
