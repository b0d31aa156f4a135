/** Points, vectors and the parts of a finite-volume mesh that the test harness reads. */
module Geometry {

  /** A three-component real vector (a cell or face centre, or a gradient). */
  datatype Vector = Vector(x: real, y: real, z: real)

  /** The zero vector. */
  const Zero: Vector := Vector(0.0, 0.0, 0.0)

  function Add(a: Vector, b: Vector): Vector
  {
    Vector(a.x + b.x, a.y + b.y, a.z + b.z)
  }

  function Dot(a: Vector, b: Vector): real
  {
    a.x * b.x + a.y * b.y + a.z * b.z
  }

  /** Magnitude of a scalar (OpenFOAM's `mag` and `fabs` on a scalar). */
  function Abs(r: real): real
  {
    if r < 0.0 then -r else r
  }

  /**
   * The geometry of one mesh as the harness uses it: one centre and one volume
   * per cell, and for every boundary patch the centres of its faces.
   */
  datatype Mesh = Mesh(cellCentres: seq<Vector>, cellVolumes: seq<real>, faceCentres: seq<seq<Vector>>)
  {
    /** Every cell has both a centre and a volume. */
    predicate Valid()
    {
      |cellVolumes| == |cellCentres|
    }

    function NCells(): nat
    {
      |cellCentres|
    }
  }
}
