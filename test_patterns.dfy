/**
 * The closed-form test fields of the harness: the value and exact gradient of
 * each pattern at a point. Only the polynomial patterns are modelled.
 */
module TestPatterns {
  import opened Geometry

  /** The test-field patterns (CONSTANT and LINEAR of the source's `testType`). */
  datatype Pattern = Constant | Linear

  /** The value of the constant pattern (`constScalVal`). */
  const ConstScalVal: real := 2.0

  /** The exact value of a pattern at point `x`. */
  function Value(pat: Pattern, x: Vector): real
  {
    match pat
    case Constant => ConstScalVal
    case Linear => 2.0 * x.x + 3.0 * x.y + x.z
  }

  /** The exact gradient of a pattern at point `x`. */
  function Gradient(pat: Pattern, x: Vector): Vector
  {
    match pat
    case Constant => Zero
    case Linear => Vector(2.0, 3.0, 1.0)
  }

  /**
   * The gradient is the exact derivative of the value: for these polynomial
   * patterns a first-order Taylor step is exact for every displacement `h`.
   */
  lemma GradientIsExact(pat: Pattern, x: Vector, h: Vector)
    ensures Value(pat, Add(x, h)) == Value(pat, x) + Dot(Gradient(pat, x), h)
  {
  }

  /** The gradient does not depend on the point. */
  lemma GradientIsUniform(pat: Pattern, x: Vector, y: Vector)
    ensures Gradient(pat, x) == Gradient(pat, y)
  {
  }
}
