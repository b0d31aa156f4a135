/**
 * Scoring a field against the exact pattern: the running sum of squared
 * deviations, the running maximum of absolute deviations and the per-cell
 * error map of the target side.
 */
module ErrorNorms {
  import opened Geometry
  import opened TestPatterns
  import opened TestFields

  /** The signed deviation of every cell value from the pattern at its centre. */
  function Deviations(values: seq<real>, centres: seq<Vector>, pat: Pattern): seq<real>
    requires |values| == |centres|
  {
    seq(|values|, i requires 0 <= i < |values| => values[i] - Value(pat, centres[i]))
  }

  /**
   * The product of two reals. Squares are written through it so that the
   * solver reasons about them as products of two factors.
   */
  function Times(a: real, b: real): real
  {
    a * b
  }

  /** A product of two factors of the same strict sign is positive. */
  lemma TimesPositive(a: real, b: real)
    requires (a > 0.0 && b > 0.0) || (a < 0.0 && b < 0.0)
    ensures Times(a, b) > 0.0
  {
    if a < 0.0 {
      assert a * b == (-a) * (-b);
    }
  }

  /** The square of a scalar (OpenFOAM's `magSqr` on a scalar). */
  function MagSqr(r: real): real
  {
    Times(r, r)
  }

  /** The sum of the squares of `d`, accumulated from the first entry on. */
  function SumOfSquares(d: seq<real>): real
  {
    if d == [] then 0.0 else SumOfSquares(d[..|d| - 1]) + MagSqr(d[|d| - 1])
  }

  /** The larger of two reals (OpenFOAM's `max` on scalars). */
  function Max(a: real, b: real): real
  {
    if a > b then a else b
  }

  /** The running maximum of the magnitudes of `d`, starting from zero. */
  function MaxAbs(d: seq<real>): real
  {
    if d == [] then 0.0 else Max(MaxAbs(d[..|d| - 1]), Abs(d[|d| - 1]))
  }

  /** One more entry of a prefix adds its square to the sum and joins the maximum. */
  lemma PrefixStep(d: seq<real>, k: nat)
    requires k < |d|
    ensures SumOfSquares(d[..k + 1]) == SumOfSquares(d[..k]) + MagSqr(d[k])
    ensures MaxAbs(d[..k + 1]) == Max(MaxAbs(d[..k]), Abs(d[k]))
  {
    assert d[..k + 1][..k] == d[..k];
  }

  /** The square of a non-zero real is positive. */
  lemma SquarePositive(x: real)
    requires x != 0.0
    ensures MagSqr(x) > 0.0
  {
    TimesPositive(x, x);
  }

  lemma {:induction false} SumOfSquaresNonNegative(d: seq<real>)
    ensures SumOfSquares(d) >= 0.0
  {
    if d != [] {
      SumOfSquaresNonNegative(d[..|d| - 1]);
      if d[|d| - 1] != 0.0 {
        SquarePositive(d[|d| - 1]);
      }
    }
  }

  /** A single non-zero deviation makes the squared-error sum positive. */
  lemma {:induction false} SumOfSquaresPositive(d: seq<real>, i: nat)
    requires i < |d| && d[i] != 0.0
    ensures SumOfSquares(d) > 0.0
  {
    var front := d[..|d| - 1];
    if i == |d| - 1 {
      SumOfSquaresNonNegative(front);
      SquarePositive(d[|d| - 1]);
    } else {
      assert front[i] == d[i];
      SumOfSquaresPositive(front, i);
      if d[|d| - 1] != 0.0 {
        SquarePositive(d[|d| - 1]);
      }
    }
  }

  /** The squared-error sum vanishes exactly when every deviation does. */
  lemma {:induction false} SumOfSquaresZero(d: seq<real>)
    ensures SumOfSquares(d) == 0.0 <==> forall i | 0 <= i < |d| :: d[i] == 0.0
  {
    if i :| 0 <= i < |d| && d[i] != 0.0 {
      SumOfSquaresPositive(d, i);
    } else {
      AllZeroSumOfSquares(d);
    }
  }

  lemma {:induction false} AllZeroSumOfSquares(d: seq<real>)
    requires forall i | 0 <= i < |d| :: d[i] == 0.0
    ensures SumOfSquares(d) == 0.0
  {
    if d != [] {
      AllZeroSumOfSquares(d[..|d| - 1]);
    }
  }

  /**
   * The maximum error is non-negative, bounds every magnitude, and is either
   * zero or one of the magnitudes.
   */
  lemma {:induction false} MaxAbsBounds(d: seq<real>)
    ensures MaxAbs(d) >= 0.0
    ensures forall i | 0 <= i < |d| :: Abs(d[i]) <= MaxAbs(d)
    ensures MaxAbs(d) == 0.0 || exists i | 0 <= i < |d| :: MaxAbs(d) == Abs(d[i])
  {
    if d != [] {
      var front := d[..|d| - 1];
      MaxAbsBounds(front);
      assert forall i | 0 <= i < |front| :: front[i] == d[i];
      if MaxAbs(d) != 0.0 && MaxAbs(d) != Abs(d[|d| - 1]) {
        var i :| 0 <= i < |front| && MaxAbs(front) == Abs(front[i]);
        assert MaxAbs(d) == Abs(d[i]);
      }
    }
  }

  /** The maximum error vanishes exactly when every deviation does. */
  lemma MaxAbsZero(d: seq<real>)
    ensures MaxAbs(d) == 0.0 <==> forall i | 0 <= i < |d| :: d[i] == 0.0
  {
    MaxAbsBounds(d);
    if MaxAbs(d) != 0.0 {
      var i :| 0 <= i < |d| && MaxAbs(d) == Abs(d[i]);
      assert d[i] != 0.0;
    }
  }

  /** The norms reported for one side: squared-error sum, maximum error, cell count. */
  datatype ErrorSummary = ErrorSummary(sumSq: real, maxError: real, nCells: nat)

  /** The summary one side's accumulation loop must arrive at. */
  function Summary(values: seq<real>, centres: seq<Vector>, pat: Pattern): ErrorSummary
    requires |values| == |centres|
  {
    var d := Deviations(values, centres, pat);
    ErrorSummary(SumOfSquares(d), MaxAbs(d), |values|)
  }

  /** The square of the L2 error norm: the mean of the squared deviations. */
  function MeanSquareError(e: ErrorSummary): (r: real)
    requires e.nCells > 0 && e.sumSq >= 0.0
    ensures r >= 0.0
    ensures r == 0.0 <==> e.sumSq == 0.0
    ensures r * (e.nCells as real) == e.sumSq
  {
    e.sumSq / (e.nCells as real)
  }

  /**
   * Both norms of a side vanish exactly when every cell holds the pattern's
   * value at its centre.
   */
  lemma ZeroErrorIffExact(values: seq<real>, centres: seq<Vector>, pat: Pattern)
    requires |values| == |centres|
    ensures Summary(values, centres, pat).sumSq == 0.0 <==>
              forall i | 0 <= i < |values| :: values[i] == Value(pat, centres[i])
    ensures Summary(values, centres, pat).maxError == 0.0 <==>
              forall i | 0 <= i < |values| :: values[i] == Value(pat, centres[i])
  {
    var d := Deviations(values, centres, pat);
    assert forall i | 0 <= i < |values| :: d[i] == values[i] - Value(pat, centres[i]);
    SumOfSquaresZero(d);
    MaxAbsZero(d);
  }

  /**
   * A field filled by the test-field generator scores zero: the generator's
   * cell formula and the evaluator's exact solution agree.
   */
  lemma PopulatedFieldHasZeroError(mesh: Mesh, pat: Pattern)
    ensures Summary(AnalyticCells(mesh, pat), mesh.cellCentres, pat).sumSq == 0.0
    ensures Summary(AnalyticCells(mesh, pat), mesh.cellCentres, pat).maxError == 0.0
  {
    ZeroErrorIffExact(AnalyticCells(mesh, pat), mesh.cellCentres, pat);
  }

  /** The per-cell absolute error of a field (the `iError` map). */
  function ErrorMap(values: seq<real>, centres: seq<Vector>, pat: Pattern): seq<real>
    requires |values| == |centres|
  {
    seq(|values|, i requires 0 <= i < |values| => Abs(values[i] - Value(pat, centres[i])))
  }

  /**
   * What a side's summary says about its cells: both norms are non-negative,
   * the maximum error bounds every entry of the error map and is either zero
   * or one of its entries.
   */
  lemma SummaryBounds(values: seq<real>, centres: seq<Vector>, pat: Pattern)
    requires |values| == |centres|
    ensures Summary(values, centres, pat).sumSq >= 0.0
    ensures Summary(values, centres, pat).maxError >= 0.0
    ensures forall i | 0 <= i < |values| :: ErrorMap(values, centres, pat)[i] <= Summary(values, centres, pat).maxError
    ensures var e := Summary(values, centres, pat).maxError;
            e == 0.0 || exists i | 0 <= i < |values| :: ErrorMap(values, centres, pat)[i] == e
  {
    var d := Deviations(values, centres, pat);
    var m := ErrorMap(values, centres, pat);
    assert forall i | 0 <= i < |values| :: m[i] == Abs(d[i]);
    SumOfSquaresNonNegative(d);
    MaxAbsBounds(d);
  }

  /**
   * Scores a source and a target field against the exact pattern, each side
   * over its own cells, and returns the per-cell error map of the target.
   */
  method ComputeError(fieldSource: VolScalarField, fieldTarget: VolScalarField, pat: Pattern)
    returns (source: ErrorSummary, target: ErrorSummary, iError: seq<real>)
    requires fieldSource.Valid() && fieldTarget.Valid()
    ensures source == Summary(fieldSource.internal[..], fieldSource.mesh.cellCentres, pat)
    ensures target == Summary(fieldTarget.internal[..], fieldTarget.mesh.cellCentres, pat)
    ensures iError == ErrorMap(fieldTarget.internal[..], fieldTarget.mesh.cellCentres, pat)
    ensures source.sumSq >= 0.0 && target.sumSq >= 0.0
    ensures source.maxError >= 0.0 && target.maxError >= 0.0
    ensures forall i | 0 <= i < |iError| :: iError[i] <= target.maxError
    ensures target.maxError == 0.0 || exists i | 0 <= i < |iError| :: target.maxError == iError[i]
  {
    var sCentres := fieldSource.mesh.cellCentres;
    var tCentres := fieldTarget.mesh.cellCentres;
    var isF := fieldSource.internal;
    var itF := fieldTarget.internal;
    ghost var sDev := Deviations(isF[..], sCentres, pat);
    ghost var tDev := Deviations(itF[..], tCentres, pat);

    var sError, tError := 0.0, 0.0;
    var smError, tmError := 0.0, 0.0;

    for cellI := 0 to isF.Length
      invariant sError == SumOfSquares(sDev[..cellI])
      invariant smError == MaxAbs(sDev[..cellI])
    {
      var sExact := Value(pat, sCentres[cellI]);
      var diff := isF[cellI] - sExact;
      assert diff == sDev[cellI];
      PrefixStep(sDev, cellI);
      sError := sError + MagSqr(diff);
      smError := Max(smError, Abs(diff));
    }

    var errorMap := new real[itF.Length];
    for cellI := 0 to itF.Length
      invariant tError == SumOfSquares(tDev[..cellI])
      invariant tmError == MaxAbs(tDev[..cellI])
      invariant forall i | 0 <= i < cellI :: errorMap[i] == Abs(tDev[i])
    {
      var tExact := Value(pat, tCentres[cellI]);
      var diff := itF[cellI] - tExact;
      assert diff == tDev[cellI];
      PrefixStep(tDev, cellI);
      tError := tError + MagSqr(diff);
      tmError := Max(tmError, Abs(diff));
      errorMap[cellI] := Abs(diff);
    }

    assert sDev[..isF.Length] == sDev;
    assert tDev[..itF.Length] == tDev;
    source := ErrorSummary(sError, smError, isF.Length);
    target := ErrorSummary(tError, tmError, itF.Length);
    iError := errorMap[..];
    SummaryBounds(isF[..], sCentres, pat);
    SummaryBounds(itF[..], tCentres, pat);
  }
}
