/**
 * The cyclic remap test: fields are populated on both meshes, mapped back and
 * forth by an external interpolation engine, and their boundaries reset to
 * the analytic values after every hop. The engine itself is not visible: it
 * is a function given by the caller.
 */
module CyclicRemap {
  import opened Geometry
  import opened TestPatterns
  import opened TestFields
  import opened ErrorNorms

  /** The interpolation variants of the engine. */
  datatype InterpolationMethod = Conservative | InverseDistance | ConservativeFirstOrder

  /**
   * What the external engine computes for one target cell from the method and
   * the source field's cell values, boundary values and cell gradients.
   */
  type CellRemap = (InterpolationMethod, seq<real>, seq<seq<real>>, seq<Vector>, nat) -> real

  /** One engine instance, built once for an ordered pair of meshes. */
  datatype MeshToMesh = MeshToMesh(srcMesh: Mesh, tgtMesh: Mesh, remap: CellRemap)

  /** The target cell values an engine produces from a source field. */
  function Interpolated(engine: MeshToMesh, m: InterpolationMethod, values: seq<real>,
                        boundary: seq<seq<real>>, gradient: seq<Vector>): seq<real>
  {
    seq(|engine.tgtMesh.cellCentres|, i requires 0 <= i => engine.remap(m, values, boundary, gradient, i))
  }

  /**
   * Runs the engine: overwrites the target field's cell values in place. What
   * the engine does to the target's boundary values is not visible, so the
   * contract keeps only their shape.
   */
  method Interpolate(engine: MeshToMesh, target: VolScalarField, source: VolScalarField,
                     gsource: VolVectorField, m: InterpolationMethod)
    requires target.Valid() && source.Valid() && gsource.Valid()
    requires source.mesh == engine.srcMesh && gsource.mesh == engine.srcMesh
    requires target.mesh == engine.tgtMesh
    requires target != source && target.internal != source.internal
    modifies target, target.internal
    ensures target.Valid()
    ensures target.internal[..] ==
              Interpolated(engine, m, source.internal[..], source.boundary, gsource.internal[..])
  {
    var values, boundary, gradient := source.internal[..], source.boundary, gsource.internal[..];
    forall i | 0 <= i < target.internal.Length {
      target.internal[i] := engine.remap(m, values, boundary, gradient, i);
    }
    ghost var expected := Interpolated(engine, m, values, boundary, gradient);
    assert |expected| == target.internal.Length;
    assert forall i | 0 <= i < target.internal.Length :: target.internal[i] == expected[i];
    assert target.internal[..] == expected;
    assert values == source.internal[..];
    assert boundary == source.boundary;
    assert gradient == gsource.internal[..];
  }

  /** The sum over cells of volume times value (`gSum(V * field)`). */
  function VolumeIntegral(volumes: seq<real>, values: seq<real>): real
    requires |volumes| == |values|
  {
    if values == [] then 0.0
    else VolumeIntegral(volumes[..|volumes| - 1], values[..|values| - 1]) + volumes[|volumes| - 1] * values[|values| - 1]
  }

  /** The total volume of a list of cells. */
  function TotalVolume(volumes: seq<real>): real
  {
    if volumes == [] then 0.0 else TotalVolume(volumes[..|volumes| - 1]) + volumes[|volumes| - 1]
  }

  /** For the constant pattern the integral is the constant times the mesh volume. */
  lemma {:induction false} ConstantPatternIntegral(mesh: Mesh)
    requires mesh.Valid()
    ensures VolumeIntegral(mesh.cellVolumes, AnalyticCells(mesh, Constant)) == ConstScalVal * TotalVolume(mesh.cellVolumes)
  {
    ConstantIntegral(mesh.cellVolumes, AnalyticCells(mesh, Constant));
  }

  lemma {:induction false} ConstantIntegral(volumes: seq<real>, values: seq<real>)
    requires |volumes| == |values|
    requires forall i | 0 <= i < |values| :: values[i] == ConstScalVal
    ensures VolumeIntegral(volumes, values) == ConstScalVal * TotalVolume(volumes)
  {
    if values != [] {
      ConstantIntegral(volumes[..|volumes| - 1], values[..|values| - 1]);
    }
  }

  /**
   * An engine conserves the volume integral when, for every source field, the
   * integral of what it produces on the target mesh equals the source's.
   */
  ghost predicate Conserves(engine: MeshToMesh, m: InterpolationMethod)
  {
    && engine.srcMesh.Valid()
    && engine.tgtMesh.Valid()
    && forall values: seq<real>, boundary: seq<seq<real>>, gradient: seq<Vector>
         | |values| == |engine.srcMesh.cellCentres| ::
         VolumeIntegral(engine.tgtMesh.cellVolumes, Interpolated(engine, m, values, boundary, gradient))
         == VolumeIntegral(engine.srcMesh.cellVolumes, values)
  }

  // ---------------------------------------------------------------------------
  // The schedule of the cyclic test

  datatype Side = SourceSide | TargetSide

  datatype Direction = SourceToTarget | TargetToSource

  /** The observable steps of the cyclic test, in the order they happen. */
  datatype Step = Populate(side: Side) | RecordSourceIntegral | Hop(dir: Direction) | ResetBoundary(side: Side)

  /** Population of both sides, the source integral, the first hop and its resets. */
  const Opening: seq<Step> :=
    [Populate(SourceSide), RecordSourceIntegral, Populate(TargetSide),
     Hop(SourceToTarget), ResetBoundary(TargetSide), ResetBoundary(SourceSide)]

  /** One round of the loop: back to the source, then forward to the target. */
  const Round: seq<Step> :=
    [Hop(TargetToSource), ResetBoundary(TargetSide), ResetBoundary(SourceSide),
     Hop(SourceToTarget), ResetBoundary(TargetSide), ResetBoundary(SourceSide)]

  function Rounds(k: int): seq<Step>
    decreases k
  {
    if k <= 0 then [] else Rounds(k - 1) + Round
  }

  /** Every step of a cyclic test of `nCycles` cycles. */
  function Schedule(nCycles: int): seq<Step>
  {
    Opening + Rounds(nCycles - 1)
  }

  /** The direction of a step that is a hop, as a list of zero or one. */
  function HopOf(step: Step): seq<Direction>
  {
    if step.Hop? then [step.dir] else []
  }

  /** The directions of the hops of a list of steps, in order. */
  function Hops(steps: seq<Step>): seq<Direction>
  {
    if steps == [] then [] else Hops(steps[..|steps| - 1]) + HopOf(steps[|steps| - 1])
  }

  /** `n` hops that alternate, starting with source to target. */
  function Alternating(n: nat): seq<Direction>
  {
    seq(n, i => if i % 2 == 0 then SourceToTarget else TargetToSource)
  }

  lemma {:induction false} HopsAppend(a: seq<Step>, b: seq<Step>)
    ensures Hops(a + b) == Hops(a) + Hops(b)
    decreases |b|
  {
    if b == [] {
      assert a + b == a;
    } else {
      var b' := b[..|b| - 1];
      assert (a + b)[..|a + b| - 1] == a + b';
      HopsAppend(a, b');
    }
  }

  /** The hops of a six-step list, read off its steps one by one. */
  lemma HopsOfSix(s: seq<Step>)
    requires |s| == 6
    ensures Hops(s) == HopOf(s[0]) + HopOf(s[1]) + HopOf(s[2]) + HopOf(s[3]) + HopOf(s[4]) + HopOf(s[5])
  {
    assert s[..1][..0] == [];
    assert Hops(s[..1]) == HopOf(s[0]);
    assert s[..2][..1] == s[..1];
    assert Hops(s[..2]) == Hops(s[..1]) + HopOf(s[1]);
    assert s[..3][..2] == s[..2];
    assert Hops(s[..3]) == Hops(s[..2]) + HopOf(s[2]);
    assert s[..4][..3] == s[..3];
    assert Hops(s[..4]) == Hops(s[..3]) + HopOf(s[3]);
    assert s[..5][..4] == s[..4];
    assert Hops(s[..5]) == Hops(s[..4]) + HopOf(s[4]);
    assert s[..6][..5] == s[..5];
    assert Hops(s[..6]) == Hops(s[..5]) + HopOf(s[5]);
    assert s[..6] == s;
  }

  /**
   * The hops of the schedule alternate, starting and ending with source to
   * target: one hop when `nCycles` is below 2, else `2 * nCycles - 1`.
   */
  lemma {:induction false} ScheduleHops(nCycles: int)
    ensures Hops(Schedule(nCycles)) == Alternating(if nCycles >= 1 then 2 * nCycles - 1 else 1)
    decreases nCycles
  {
    HopsOfSix(Opening);
    HopsOfSix(Round);
    if nCycles <= 1 {
      assert Schedule(nCycles) == Opening;
    } else {
      ScheduleHops(nCycles - 1);
      assert Schedule(nCycles) == Schedule(nCycles - 1) + Round;
      HopsAppend(Schedule(nCycles - 1), Round);
    }
  }

  /** Both boundaries are reset, target then source, right after every hop. */
  lemma {:induction false} ResetsFollowEveryHop(nCycles: int)
    ensures forall k | 0 <= k < |Schedule(nCycles)| && Schedule(nCycles)[k].Hop? ::
              && k + 2 < |Schedule(nCycles)|
              && Schedule(nCycles)[k + 1] == ResetBoundary(TargetSide)
              && Schedule(nCycles)[k + 2] == ResetBoundary(SourceSide)
    decreases nCycles
  {
    if nCycles > 1 {
      ResetsFollowEveryHop(nCycles - 1);
      var prev := Schedule(nCycles - 1);
      assert Schedule(nCycles) == prev + Round;
      forall k | |prev| <= k < |prev| + 6
        ensures (prev + Round)[k] == Round[k - |prev|]
      {
      }
    }
  }

  /**
   * The source integral is recorded once, right after the source is populated
   * and before any hop; the last three steps are a source-to-target hop and
   * the two resets.
   */
  lemma {:induction false} IntegralFirstForwardLast(nCycles: int)
    ensures Schedule(nCycles)[0] == Populate(SourceSide)
    ensures Schedule(nCycles)[1] == RecordSourceIntegral
    ensures forall k | 0 <= k < |Schedule(nCycles)| && Schedule(nCycles)[k].Hop? :: k > 1
    ensures forall k | 0 <= k < |Schedule(nCycles)| && Schedule(nCycles)[k] == RecordSourceIntegral :: k == 1
    ensures var s := Schedule(nCycles);
            s[|s| - 3..] == [Hop(SourceToTarget), ResetBoundary(TargetSide), ResetBoundary(SourceSide)]
    decreases nCycles
  {
    if nCycles > 1 {
      IntegralFirstForwardLast(nCycles - 1);
      var prev := Schedule(nCycles - 1);
      assert Schedule(nCycles) == prev + Round;
      forall k | |prev| <= k < |prev| + 6
        ensures (prev + Round)[k] == Round[k - |prev|]
      {
      }
    }
  }

  // ---------------------------------------------------------------------------
  // The field values the cyclic test arrives at

  /** The cell values of both sides after some number of rounds. */
  datatype FieldPair = FieldPair(source: seq<real>, target: seq<real>)

  /**
   * One hop: the engine applied to a source field whose boundary and gradient
   * hold the pattern's exact values on the engine's source mesh.
   */
  function Remap(engine: MeshToMesh, m: InterpolationMethod, pat: Pattern, values: seq<real>): seq<real>
  {
    Interpolated(engine, m, values, AnalyticBoundary(engine.srcMesh, pat), AnalyticGradients(engine.srcMesh, pat))
  }

  /**
   * The cell values after the first hop and `k` further rounds: the source
   * starts from the pattern, every round maps the target back to the source,
   * and every target is the forward image of the source beside it.
   */
  function AfterRounds(k: int, fwd: MeshToMesh, bwd: MeshToMesh, m: InterpolationMethod, pat: Pattern): FieldPair
    decreases k
  {
    var s := if k <= 0 then AnalyticCells(fwd.srcMesh, pat)
             else Remap(bwd, m, pat, AfterRounds(k - 1, fwd, bwd, m, pat).target);
    FieldPair(s, Remap(fwd, m, pat, s))
  }

  /**
   * With engines that conserve the integral, neither side's integral drifts
   * from the source integral recorded before the first hop, however many
   * rounds are made.
   */
  lemma {:induction false} ConservativeRoundsKeepIntegral(k: int, fwd: MeshToMesh, bwd: MeshToMesh,
                                                          m: InterpolationMethod, pat: Pattern)
    requires Conserves(fwd, m) && Conserves(bwd, m)
    requires bwd.srcMesh == fwd.tgtMesh && bwd.tgtMesh == fwd.srcMesh
    ensures |AfterRounds(k, fwd, bwd, m, pat).source| == |fwd.srcMesh.cellCentres|
    ensures |AfterRounds(k, fwd, bwd, m, pat).target| == |fwd.tgtMesh.cellCentres|
    ensures VolumeIntegral(fwd.srcMesh.cellVolumes, AfterRounds(k, fwd, bwd, m, pat).source)
            == VolumeIntegral(fwd.srcMesh.cellVolumes, AnalyticCells(fwd.srcMesh, pat))
    ensures VolumeIntegral(fwd.tgtMesh.cellVolumes, AfterRounds(k, fwd, bwd, m, pat).target)
            == VolumeIntegral(fwd.srcMesh.cellVolumes, AnalyticCells(fwd.srcMesh, pat))
    decreases k
  {
    var p := AfterRounds(k, fwd, bwd, m, pat);
    if k > 0 {
      ConservativeRoundsKeepIntegral(k - 1, fwd, bwd, m, pat);
      var prev := AfterRounds(k - 1, fwd, bwd, m, pat);
      assert p.source == Remap(bwd, m, pat, prev.target);
    }
    assert p.target == Remap(fwd, m, pat, p.source);
  }

  /**
   * One hop in direction `dir` from `from` to `to`, then the boundaries of the
   * target-side field and of the source-side field reset, in that order.
   */
  method HopAndReset(dir: Direction, engine: MeshToMesh, m: InterpolationMethod, pat: Pattern,
                     to: VolScalarField, from: VolScalarField, gfrom: VolVectorField)
    returns (ghost done: seq<Step>)
    requires to.Valid() && from.Valid() && gfrom.Valid()
    requires from.mesh == engine.srcMesh && gfrom.mesh == engine.srcMesh && to.mesh == engine.tgtMesh
    requires to != from && to.internal != from.internal
    requires from.boundary == AnalyticBoundary(from.mesh, pat)
    requires gfrom.internal[..] == AnalyticGradients(from.mesh, pat)
    modifies to, to.internal, from`boundary
    ensures to.Valid() && from.Valid()
    ensures to.internal[..] == Remap(engine, m, pat, from.internal[..])
    ensures to.boundary == AnalyticBoundary(to.mesh, pat)
    ensures from.boundary == AnalyticBoundary(from.mesh, pat)
    ensures done == [Hop(dir), ResetBoundary(TargetSide), ResetBoundary(SourceSide)]
  {
    Interpolate(engine, to, from, gfrom, m);
    if dir == SourceToTarget {
      InitBoundaryFields(to, pat);
      InitBoundaryFields(from, pat);
    } else {
      InitBoundaryFields(from, pat);
      InitBoundaryFields(to, pat);
    }
    done := [Hop(dir), ResetBoundary(TargetSide), ResetBoundary(SourceSide)];
  }

  /**
   * The `nCycles - 1` rounds of the cyclic loop, each a hop back to the
   * source and a hop forward to the target with both boundaries reset after
   * each, starting from the fields as they are after the first hop.
   */
  method RunRounds(nCycles: int, fwd: MeshToMesh, bwd: MeshToMesh, m: InterpolationMethod, pat: Pattern,
                   fieldSource: VolScalarField, fieldTarget: VolScalarField,
                   gfieldSource: VolVectorField, gfieldTarget: VolVectorField)
    returns (ghost steps: seq<Step>)
    requires bwd.srcMesh == fwd.tgtMesh && bwd.tgtMesh == fwd.srcMesh
    requires fieldSource.Valid() && fieldTarget.Valid() && gfieldSource.Valid() && gfieldTarget.Valid()
    requires fieldSource.mesh == fwd.srcMesh && gfieldSource.mesh == fwd.srcMesh
    requires fieldTarget.mesh == fwd.tgtMesh && gfieldTarget.mesh == fwd.tgtMesh
    requires fieldSource != fieldTarget && fieldSource.internal != fieldTarget.internal
    requires fieldSource.boundary == AnalyticBoundary(fwd.srcMesh, pat)
    requires fieldTarget.boundary == AnalyticBoundary(fwd.tgtMesh, pat)
    requires gfieldSource.internal[..] == AnalyticGradients(fwd.srcMesh, pat)
    requires gfieldTarget.internal[..] == AnalyticGradients(fwd.tgtMesh, pat)
    requires fieldSource.internal[..] == AfterRounds(0, fwd, bwd, m, pat).source
    requires fieldTarget.internal[..] == AfterRounds(0, fwd, bwd, m, pat).target
    modifies fieldSource, fieldSource.internal, fieldTarget, fieldTarget.internal
    ensures fieldSource.Valid() && fieldTarget.Valid()
    ensures fieldSource.boundary == AnalyticBoundary(fwd.srcMesh, pat)
    ensures fieldTarget.boundary == AnalyticBoundary(fwd.tgtMesh, pat)
    ensures fieldSource.internal[..] == AfterRounds(nCycles - 1, fwd, bwd, m, pat).source
    ensures fieldTarget.internal[..] == AfterRounds(nCycles - 1, fwd, bwd, m, pat).target
    ensures steps == Rounds(nCycles - 1)
  {
    steps := [];
    var i := 1;
    while i < nCycles
      invariant 1 <= i <= (if nCycles >= 1 then nCycles else 1)
      invariant steps == Rounds(i - 1)
      invariant fieldSource.Valid() && fieldTarget.Valid()
      invariant fieldSource.boundary == AnalyticBoundary(fwd.srcMesh, pat)
      invariant fieldTarget.boundary == AnalyticBoundary(fwd.tgtMesh, pat)
      invariant fieldSource.internal[..] == AfterRounds(i - 1, fwd, bwd, m, pat).source
      invariant fieldTarget.internal[..] == AfterRounds(i - 1, fwd, bwd, m, pat).target
      decreases nCycles - i
    {
      ghost var back := HopAndReset(TargetToSource, bwd, m, pat, fieldSource, fieldTarget, gfieldTarget);
      ghost var forth := HopAndReset(SourceToTarget, fwd, m, pat, fieldTarget, fieldSource, gfieldSource);
      assert back + forth == Round;
      steps := steps + (back + forth);
      i := i + 1;
    }
  }

  /**
   * The cyclic remap test. Populates both meshes, records the source
   * integral, makes one source-to-target hop and then `nCycles - 1` rounds of
   * a target-to-source and a source-to-target hop, resetting both boundaries
   * after every hop; finally scores both sides and reports the integrals.
   * `steps` records what was done, in order.
   */
  method TestCyclicRemap(nCycles: int, pat: Pattern, meshSource: Mesh, meshTarget: Mesh,
                         m: InterpolationMethod, forwardRemap: CellRemap, backwardRemap: CellRemap)
    returns (intSource: real, intSourceAfter: real, intTarget: real, conservationError: real,
             sourceError: ErrorSummary, targetError: ErrorSummary, iError: seq<real>,
             ghost steps: seq<Step>)
    requires meshSource.Valid() && meshTarget.Valid()
    ensures steps == Schedule(nCycles)
    ensures var fwd := MeshToMesh(meshSource, meshTarget, forwardRemap);
            var bwd := MeshToMesh(meshTarget, meshSource, backwardRemap);
            var final := AfterRounds(nCycles - 1, fwd, bwd, m, pat);
            && |final.source| == |meshSource.cellCentres|
            && |final.target| == |meshTarget.cellCentres|
            && intSource == VolumeIntegral(meshSource.cellVolumes, AnalyticCells(meshSource, pat))
            && intSourceAfter == VolumeIntegral(meshSource.cellVolumes, final.source)
            && intTarget == VolumeIntegral(meshTarget.cellVolumes, final.target)
            && sourceError == Summary(final.source, meshSource.cellCentres, pat)
            && targetError == Summary(final.target, meshTarget.cellCentres, pat)
            && iError == ErrorMap(final.target, meshTarget.cellCentres, pat)
    ensures conservationError == Abs(intSource - intTarget)
    ensures nCycles <= 1 ==> intSourceAfter == intSource
    ensures Conserves(MeshToMesh(meshSource, meshTarget, forwardRemap), m)
            && Conserves(MeshToMesh(meshTarget, meshSource, backwardRemap), m)
            ==> conservationError == 0.0 && intSourceAfter == intSource
  {
    var fieldSource, gfieldSource := InitTestField(meshSource, pat, true);
    steps := [Populate(SourceSide)];

    intSource := VolumeIntegral(meshSource.cellVolumes, fieldSource.internal[..]);
    steps := steps + [RecordSourceIntegral];

    var fieldTarget, gfieldTarget := InitTestField(meshTarget, pat, true);
    steps := steps + [Populate(TargetSide)];

    var meshSourceToTarget := MeshToMesh(meshSource, meshTarget, forwardRemap);
    var meshTargetToSource := MeshToMesh(meshTarget, meshSource, backwardRemap);
    ghost var done := HopAndReset(SourceToTarget, meshSourceToTarget, m, pat, fieldTarget, fieldSource, gfieldSource);
    steps := steps + done;
    assert steps == Opening;

    ghost var rounds := RunRounds(nCycles, meshSourceToTarget, meshTargetToSource, m, pat,
                                  fieldSource, fieldTarget, gfieldSource, gfieldTarget);
    steps := steps + rounds;

    assert steps == Schedule(nCycles);
    sourceError, targetError, iError := ComputeError(fieldSource, fieldTarget, pat);

    intSourceAfter := VolumeIntegral(meshSource.cellVolumes, fieldSource.internal[..]);
    intTarget := VolumeIntegral(meshTarget.cellVolumes, fieldTarget.internal[..]);
    conservationError := Abs(intSource - intTarget);

    if Conserves(meshSourceToTarget, m) && Conserves(meshTargetToSource, m) {
      ConservativeRoundsKeepIntegral(nCycles - 1, meshSourceToTarget, meshTargetToSource, m, pat);
    }
  }
}
