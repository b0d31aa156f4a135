/**
 * Scalar and vector volume fields on a mesh, and the two routines that fill
 * them with a test pattern: the internal cells with their gradient, and the
 * boundary faces.
 */
module TestFields {
  import opened Geometry
  import opened TestPatterns

  /** `b` holds one value per face of every boundary patch of `mesh`. */
  ghost predicate FitsBoundary(b: seq<seq<real>>, mesh: Mesh)
  {
    && |b| == |mesh.faceCentres|
    && forall p | 0 <= p < |b| :: |b[p]| == |mesh.faceCentres[p]|
  }

  /** The pattern's value at every cell centre. */
  function AnalyticCells(mesh: Mesh, pat: Pattern): seq<real>
  {
    seq(|mesh.cellCentres|, i requires 0 <= i < |mesh.cellCentres| => Value(pat, mesh.cellCentres[i]))
  }

  /** The pattern's gradient at every cell centre. */
  function AnalyticGradients(mesh: Mesh, pat: Pattern): seq<Vector>
  {
    seq(|mesh.cellCentres|, i requires 0 <= i < |mesh.cellCentres| => Gradient(pat, mesh.cellCentres[i]))
  }

  /** The pattern's value at every boundary face centre, patch by patch. */
  function AnalyticBoundary(mesh: Mesh, pat: Pattern): seq<seq<real>>
  {
    seq(|mesh.faceCentres|, p requires 0 <= p < |mesh.faceCentres| =>
      seq(|mesh.faceCentres[p]|, f requires 0 <= f < |mesh.faceCentres[p]| => Value(pat, mesh.faceCentres[p][f])))
  }

  /** A zero value on every boundary face. */
  function ZeroBoundary(mesh: Mesh): seq<seq<real>>
  {
    seq(|mesh.faceCentres|, p requires 0 <= p < |mesh.faceCentres| => seq(|mesh.faceCentres[p]|, _ => 0.0))
  }

  /**
   * A scalar field on a mesh (`volScalarField`): one value per cell, held in an
   * array written in place, and one value per boundary face, patch by patch.
   */
  class VolScalarField {
    const mesh: Mesh
    const internal: array<real>
    var boundary: seq<seq<real>>

    ghost predicate Valid()
      reads this
    {
      && mesh.Valid()
      && internal.Length == |mesh.cellCentres|
      && FitsBoundary(boundary, mesh)
    }

    /** A field that is zero in every cell and on every boundary face. */
    constructor (mesh: Mesh)
      requires mesh.Valid()
      ensures Valid() && this.mesh == mesh && fresh(internal)
      ensures internal[..] == seq(|mesh.cellCentres|, _ => 0.0)
      ensures boundary == ZeroBoundary(mesh)
    {
      this.mesh := mesh;
      internal := new real[|mesh.cellCentres|](_ => 0.0);
      boundary := ZeroBoundary(mesh);
    }
  }

  /** A vector field on a mesh (`volVectorField`), used for cell gradients. */
  class VolVectorField {
    const mesh: Mesh
    const internal: array<Vector>

    ghost predicate Valid()
      reads this
    {
      && mesh.Valid()
      && internal.Length == |mesh.cellCentres|
    }

    /** A field that is the zero vector in every cell. */
    constructor (mesh: Mesh)
      requires mesh.Valid()
      ensures Valid() && this.mesh == mesh && fresh(internal)
      ensures internal[..] == seq(|mesh.cellCentres|, _ => Zero)
    {
      this.mesh := mesh;
      internal := new Vector[|mesh.cellCentres|](_ => Zero);
    }
  }

  /**
   * Sets every boundary face of `field` to the pattern's value at that face's
   * centre, patch by patch and face by face. The cell values are not touched.
   */
  method InitBoundaryFields(field: VolScalarField, pat: Pattern)
    requires field.Valid()
    modifies field`boundary
    ensures field.Valid()
    ensures field.boundary == AnalyticBoundary(field.mesh, pat)
    ensures field.internal[..] == old(field.internal[..])
  {
    ghost var goal := AnalyticBoundary(field.mesh, pat);
    var faceCentres := field.mesh.faceCentres;
    for patchI := 0 to |faceCentres|
      invariant FitsBoundary(field.boundary, field.mesh)
      invariant forall p | 0 <= p < patchI :: field.boundary[p] == goal[p]
    {
      for faceI := 0 to |faceCentres[patchI]|
        invariant FitsBoundary(field.boundary, field.mesh)
        invariant forall p | 0 <= p < patchI :: field.boundary[p] == goal[p]
        invariant forall f | 0 <= f < faceI :: field.boundary[patchI][f] == goal[patchI][f]
      {
        var x := faceCentres[patchI][faceI];
        field.boundary := field.boundary[patchI := field.boundary[patchI][faceI := Value(pat, x)]];
      }
      assert field.boundary[patchI] == goal[patchI];
    }
  }

  /**
   * Creates a fresh scalar field and its gradient field on `mesh`, both zero.
   * With `populate`, every cell then holds the pattern's value and gradient at
   * its centre, and every boundary face the pattern's value at its centre.
   */
  method InitTestField(mesh: Mesh, pat: Pattern, populate: bool)
    returns (field: VolScalarField, gfield: VolVectorField)
    requires mesh.Valid()
    ensures fresh(field) && fresh(field.internal) && fresh(gfield) && fresh(gfield.internal)
    ensures field.Valid() && field.mesh == mesh
    ensures gfield.Valid() && gfield.mesh == mesh
    ensures populate ==>
              && field.internal[..] == AnalyticCells(mesh, pat)
              && gfield.internal[..] == AnalyticGradients(mesh, pat)
              && field.boundary == AnalyticBoundary(mesh, pat)
    ensures !populate ==>
              && field.internal[..] == seq(|mesh.cellCentres|, _ => 0.0)
              && gfield.internal[..] == seq(|mesh.cellCentres|, _ => Zero)
              && field.boundary == ZeroBoundary(mesh)
  {
    field := new VolScalarField(mesh);
    gfield := new VolVectorField(mesh);
    if populate {
      var xC := mesh.cellCentres;
      for cellI := 0 to |xC|
        invariant field.Valid()
        invariant forall i | 0 <= i < cellI :: field.internal[i] == Value(pat, xC[i])
        invariant forall i | 0 <= i < cellI :: gfield.internal[i] == Gradient(pat, xC[i])
      {
        field.internal[cellI] := Value(pat, xC[cellI]);
        gfield.internal[cellI] := Gradient(pat, xC[cellI]);
      }
      InitBoundaryFields(field, pat);
    }
  }
}
