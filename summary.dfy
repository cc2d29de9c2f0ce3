/**
 * The status overview: how many rows of `Coches` are "En Tienda" and how
 * many are "Salida Por Tango".
 */
module LocationSummary {
  import opened Wrappers
  import opened Reports

  /** `coches.filter((c) => c.UbicacionActual === name).length`. */
  function CountAt(coches: seq<Car>, loc: Loc): (n: nat)
    ensures n <= |coches|
    ensures n == 0 <==> forall i :: 0 <= i < |coches| ==> coches[i].current != Some(loc)
    ensures n == |coches| <==> forall i :: 0 <= i < |coches| ==> coches[i].current == Some(loc)
  {
    if coches == [] then 0
    else (if coches[0].current == Some(loc) then 1 else 0) + CountAt(coches[1..], loc)
  }

  /** The UbicacionActual column. */
  function Column(coches: seq<Car>): (col: seq<Option<Loc>>)
    ensures |col| == |coches|
    ensures forall i :: 0 <= i < |coches| ==> col[i] == coches[i].current
  {
    seq(|coches|, i requires 0 <= i < |coches| => coches[i].current)
  }

  /** Each count is the number of times its name occurs in the UbicacionActual column. */
  lemma {:induction false} CountAtIsOccurrences(coches: seq<Car>, loc: Loc)
    ensures CountAt(coches, loc) == multiset(Column(coches))[Some(loc)]
  {
    if coches != [] {
      CountAtIsOccurrences(coches[1..], loc);
      assert Column(coches) == [coches[0].current] + Column(coches[1..]);
    }
  }

  /**
   * A car is counted at most once, so the two counts never exceed the number
   * of rows; they add up to it exactly when every row holds one of the two names.
   */
  lemma {:induction false} SummaryBound(coches: seq<Car>)
    ensures CountAt(coches, EnTienda) + CountAt(coches, SalidaPorTango) <= |coches|
    ensures CountAt(coches, EnTienda) + CountAt(coches, SalidaPorTango) == |coches| <==>
      forall i :: 0 <= i < |coches| ==> coches[i].current.Some?
  {
    if coches != [] {
      SummaryBound(coches[1..]);
      if forall i :: 0 <= i < |coches| ==> coches[i].current.Some? {
        assert forall i :: 0 <= i < |coches| - 1 ==> coches[1..][i].current.Some? by {
          forall i | 0 <= i < |coches| - 1 ensures coches[1..][i].current.Some? {
            assert coches[1..][i] == coches[i + 1];
          }
        }
        assert CountAt(coches[1..], EnTienda) + CountAt(coches[1..], SalidaPorTango) == |coches| - 1;
        match coches[0].current.value
        case EnTienda =>
        case SalidaPorTango =>
      } else {
        var i :| 0 <= i < |coches| && coches[i].current.None?;
        if i > 0 {
          assert coches[1..][i - 1] == coches[i];
        }
      }
    }
  }
}
