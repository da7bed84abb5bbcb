/**
 * CSparseMatrixProjector2D: a 2D projector whose ray/pixel weights are the
 * entries of the sparse matrix held by its projection geometry. The object
 * owns value copies of the projection and volume geometry and an
 * initialised flag; its queries read the matrix, and its traversals drive a
 * caller-supplied policy.
 */
module Projector {
  import opened Wrappers
  import opened SparseMatrix
  import opened Geometry
  import opened Traversal

  /** One detector influenced by a pixel (SDetector2D), with the weight of the matrix entry that links them. */
  datatype Detector2D = Detector2D(index: nat, angleIndex: nat, detectorIndex: nat, weight: real)

  /**
   * `_check`: both geometries are sound and the matrix has one column per volume pixel.
   * Consequently every ray has a row and every stored entry names a pixel of the volume.
   */
  predicate Compatible(pg: ProjectionGeometry, vg: VolumeGeometry)
    ensures Compatible(pg, vg) ==>
      && |pg.matrix.rows| == RayCount(pg)
      && forall r, i :: 0 <= r < |pg.matrix.rows| && 0 <= i < |pg.matrix.rows[r]| ==>
           pg.matrix.rows[r][i].pixelIndex < GridTotCount(vg)
  {
    ProjectionGeometryValid(pg) && pg.matrix.columnCount == GridTotCount(vg)
  }

  /** Maps column entries (ray, weight) back to (projection, detector). */
  function ToDetectors(detectorCount: nat, entries: seq<(nat, real)>): (ds: seq<Detector2D>)
    requires detectorCount > 0
    ensures |ds| == |entries|
  {
    seq(|entries|, i requires 0 <= i < |entries| =>
      Detector2D(entries[i].0, ProjectionOfRay(detectorCount, entries[i].0),
                 DetectorOfRay(detectorCount, entries[i].0), entries[i].1))
  }

  /** The detectors of a pixel index, in ascending ray order. */
  function DetectorsOfPixel(pg: ProjectionGeometry, pixel: int): seq<Detector2D>
    requires ProjectionGeometryValid(pg)
  {
    if pg.detectorCount == 0 then []
    else ToDetectors(pg.detectorCount, ColumnEntries(pg.matrix, pixel, RayCount(pg)))
  }

  /** Every detector returned for a pixel is a stored entry of that pixel's column. */
  lemma DetectorsOfPixelSound(pg: ProjectionGeometry, pixel: int)
    requires ProjectionGeometryValid(pg)
    ensures forall i :: 0 <= i < |DetectorsOfPixel(pg, pixel)| ==>
      var s := DetectorsOfPixel(pg, pixel)[i];
      && s.angleIndex < pg.projectionAngleCount && s.detectorIndex < pg.detectorCount
      && s.index == RayIndex(pg.detectorCount, s.angleIndex, s.detectorIndex)
      && 0 <= pixel && PixelWeight(pixel as nat, s.weight) in RayRow(pg, s.angleIndex, s.detectorIndex)
  {
    var ds := DetectorsOfPixel(pg, pixel);
    var m := pg.matrix;
    var dc := pg.detectorCount;
    if dc > 0 {
      var es := ColumnEntries(m, pixel, RayCount(pg));
      if pixel < 0 {
        ColumnEntriesOutOfRange(m, pixel, RayCount(pg));
      } else {
        forall i | 0 <= i < |ds|
          ensures ds[i].angleIndex < pg.projectionAngleCount && ds[i].detectorIndex < dc
          ensures ds[i].index == RayIndex(dc, ds[i].angleIndex, ds[i].detectorIndex)
          ensures PixelWeight(pixel as nat, ds[i].weight) in RayRow(pg, ds[i].angleIndex, ds[i].detectorIndex)
        {
          var (ray, w) := es[i];
          assert (ray, w) in es;
          ColumnEntriesMembership(m, pixel as nat, RayCount(pg), ray, w);
          RayIndexInverse(pg, ray);
          assert ds[i] == Detector2D(ray, ProjectionOfRay(dc, ray), DetectorOfRay(dc, ray), w);
        }
      }
    }
  }

  /** The detectors of a pixel come out in strictly ascending ray order, so no entry is reported twice. */
  lemma DetectorsOfPixelAscending(pg: ProjectionGeometry, pixel: int)
    requires ProjectionGeometryValid(pg)
    ensures forall i, j :: 0 <= i < j < |DetectorsOfPixel(pg, pixel)| ==>
      DetectorsOfPixel(pg, pixel)[i].index < DetectorsOfPixel(pg, pixel)[j].index
  {
    if pg.detectorCount > 0 {
      ColumnEntriesAscending(pg.matrix, pixel, RayCount(pg));
    }
  }

  /** Every stored entry of a pixel's column is returned as the detector of its ray. */
  lemma DetectorsOfPixelComplete(pg: ProjectionGeometry, pixel: int)
    requires ProjectionGeometryValid(pg)
    ensures forall p: nat, d: nat, w: real ::
      p < pg.projectionAngleCount && d < pg.detectorCount && 0 <= pixel &&
      PixelWeight(pixel as nat, w) in RayRow(pg, p, d) ==>
        Detector2D(RayIndex(pg.detectorCount, p, d), p, d, w) in DetectorsOfPixel(pg, pixel)
  {
    var ds := DetectorsOfPixel(pg, pixel);
    var dc := pg.detectorCount;
    forall p: nat, d: nat, w: real |
      p < pg.projectionAngleCount && d < dc && 0 <= pixel && PixelWeight(pixel as nat, w) in RayRow(pg, p, d)
      ensures Detector2D(RayIndex(dc, p, d), p, d, w) in ds
    {
      var ray := RayIndex(dc, p, d);
      var es := ColumnEntries(pg.matrix, pixel, RayCount(pg));
      RayIndexInRange(pg, p, d);
      RayIndexRoundTrip(dc, p, d);
      ColumnEntriesMembership(pg.matrix, pixel as nat, RayCount(pg), ray, w);
      var i :| 0 <= i < |es| && es[i] == (ray, w);
      assert ds[i] == Detector2D(ray, p, d, w);
    }
  }

  /** A pixel index outside the volume has no detectors. */
  lemma DetectorsOfPixelOutside(pg: ProjectionGeometry, vg: VolumeGeometry, pixel: int)
    requires Compatible(pg, vg)
    requires pixel < 0 || pixel >= GridTotCount(vg)
    ensures DetectorsOfPixel(pg, pixel) == []
  {
    ColumnEntriesOutOfRange(pg.matrix, pixel, RayCount(pg));
  }

  /**
   * Round trip from the matrix to the point query: each stored entry of ray
   * (p, d) is reported by projectPoint at the grid point of its pixel, as
   * detector d of projection p with the entry's weight.
   */
  lemma ProjectPointRoundTrip(proj: SparseMatrixProjector2D, p: nat, d: nat, k: nat)
    requires proj.Valid() && proj.initialized
    requires p < proj.projectionGeometry.value.projectionAngleCount && d < proj.projectionGeometry.value.detectorCount
    requires k < |RayRow(proj.projectionGeometry.value, p, d)|
    ensures proj.volumeGeometry.value.gridColCount > 0
    ensures var pg := proj.projectionGeometry.value;
      var vg := proj.volumeGeometry.value;
      var e := RayRow(pg, p, d)[k];
      && PixelRowOf(vg, e.pixelIndex) < vg.gridRowCount && PixelColOf(vg, e.pixelIndex) < vg.gridColCount
      && Detector2D(RayIndex(pg.detectorCount, p, d), p, d, e.weight)
           in proj.ProjectPoint(PixelRowOf(vg, e.pixelIndex), PixelColOf(vg, e.pixelIndex))
  {
    var pg := proj.projectionGeometry.value;
    var vg := proj.volumeGeometry.value;
    var row := RayRow(pg, p, d);
    RayIndexInRange(pg, p, d);
    assert WithinColumns(row, pg.matrix.columnCount);
    var e := row[k];
    assert e in row;
    PixelIndexInverse(vg, e.pixelIndex);
  }

  /** The policy, as the record of the calls made to it; prior's answer for each ray is fixed in advance. */
  class TracePolicy {
    const prior: nat -> bool
    var trace: seq<Event>

    constructor (prior: nat -> bool)
      ensures this.prior == prior && trace == []
    {
      this.prior := prior;
      trace := [];
    }

    method Prior(ray: nat) returns (accepted: bool)
      modifies this
      ensures accepted == prior(ray)
      ensures trace == old(trace) + [PriorCall(ray)]
    {
      trace := trace + [PriorCall(ray)];
      accepted := prior(ray);
    }

    method AddWeight(ray: nat, pixel: nat, weight: real)
      modifies this
      ensures trace == old(trace) + [AddWeightCall(ray, pixel, weight)]
    {
      trace := trace + [AddWeightCall(ray, pixel, weight)];
    }

    method Posterior(ray: nat)
      modifies this
      ensures trace == old(trace) + [PosteriorCall(ray)]
    {
      trace := trace + [PosteriorCall(ray)];
    }
  }

  class SparseMatrixProjector2D {
    /** The identifier the projector is registered under. */
    static const TypeName: string := "sparse_matrix"

    var initialized: bool
    var projectionGeometry: Option<ProjectionGeometry>
    var volumeGeometry: Option<VolumeGeometry>

    /** `_check`: "no NULL pointers", sub-objects initialised, matrix dimensions match the volume. */
    predicate Check()
      reads this
      ensures Check() <==>
        && projectionGeometry.Some? && volumeGeometry.Some?
        && SparseMatrix.Valid(projectionGeometry.value.matrix)
        && projectionGeometry.value.matrix.rowCount == RayCount(projectionGeometry.value)
        && projectionGeometry.value.matrix.columnCount == GridTotCount(volumeGeometry.value)
    {
      projectionGeometry.Some? && volumeGeometry.Some? && Compatible(projectionGeometry.value, volumeGeometry.value)
    }

    /** The object invariant: the initialised state is only reached through a passed check. */
    ghost predicate Valid()
      reads this
    {
      initialized ==> Check()
    }

    /** Default constructor; the initial clearing (`_clear`) leaves no geometries and the uninitialised state. */
    constructor ()
      ensures Valid() && !initialized
      ensures projectionGeometry == None && volumeGeometry == None
    {
      initialized := false;
      projectionGeometry := None;
      volumeGeometry := None;
    }

    /** Constructor with geometries: initial clearing, then `initialize`. */
    constructor WithGeometries(pg: Option<ProjectionGeometry>, vg: Option<VolumeGeometry>)
      ensures Valid()
      ensures projectionGeometry == pg && volumeGeometry == vg
      ensures initialized <==> pg.Some? && vg.Some? && Compatible(pg.value, vg.value)
    {
      initialized := false;
      projectionGeometry := None;
      volumeGeometry := None;
      new;
      var _ := Initialize(pg, vg);
    }

    /**
     * `initialize`: an initialised object is cleared first, then the
     * geometries are copied in and the object is initialised exactly when the
     * check passes.
     */
    method Initialize(pg: Option<ProjectionGeometry>, vg: Option<VolumeGeometry>) returns (ok: bool)
      modifies this
      ensures Valid()
      ensures projectionGeometry == pg && volumeGeometry == vg
      ensures ok == initialized
      ensures ok <==> pg.Some? && vg.Some? && Compatible(pg.value, vg.value)
    {
      if initialized {
        Clear();
      }
      projectionGeometry := pg;
      volumeGeometry := vg;
      initialized := Check();
      ok := initialized;
    }

    /** `clear`: releases the geometries and returns to the uninitialised state. */
    method Clear()
      modifies this
      ensures Valid() && !initialized
      ensures projectionGeometry == None && volumeGeometry == None
    {
      projectionGeometry := None;
      volumeGeometry := None;
      initialized := false;
    }

    /** `getType`: the registered identifier. */
    function GetType(): (t: string)
      ensures t == TypeName && t == "sparse_matrix"
    {
      TypeName
    }

    /**
     * `getProjectionWeightsCount`: the buffer size that holds every entry of
     * every ray of projection `p`, which is also the number of addWeight calls
     * projectSingleProjection(p) makes when every ray is accepted.
     */
    function GetProjectionWeightsCount(p: int): (n: nat)
      reads this
      requires Valid() && initialized
      requires 0 <= p < projectionGeometry.value.projectionAngleCount
      ensures n == |ProjectionWeights(projectionGeometry.value, p)|
      ensures n == AddWeightCount(ProjectionTrace(projectionGeometry.value, p, AcceptAll))
    {
      var pg := projectionGeometry.value;
      RayIndexInRange(pg, p, pg.detectorCount);
      var lo := RayIndex(pg.detectorCount, p, 0);
      var hi := RayIndex(pg.detectorCount, p, pg.detectorCount);
      RowsWeightsLength(pg.matrix, lo, hi);
      AddWeightCountRows(pg.matrix, lo, hi);
      NnzSum(pg.matrix, lo, hi)
    }

    /**
     * `computeSingleRayWeights`: copies the entries of ray (p, d) into the
     * caller's buffer, in row order, and returns how many were stored. The
     * caller must supply more room than the ray has entries.
     */
    method ComputeSingleRayWeights(p: int, d: int, weightedPixels: array<PixelWeight>, maxPixelCount: int)
      returns (storedPixelCount: int)
      requires Valid() && initialized
      requires 0 <= p < projectionGeometry.value.projectionAngleCount
      requires 0 <= d < projectionGeometry.value.detectorCount
      requires maxPixelCount <= weightedPixels.Length
      requires maxPixelCount > |RayRow(projectionGeometry.value, p, d)|
      modifies weightedPixels
      ensures storedPixelCount == |RayRow(projectionGeometry.value, p, d)| && storedPixelCount < maxPixelCount
      ensures weightedPixels[..storedPixelCount] == RayRow(projectionGeometry.value, p, d)
      ensures weightedPixels[storedPixelCount..] == old(weightedPixels[storedPixelCount..])
      ensures StrictlyAscending(weightedPixels[..storedPixelCount])
      ensures WithinColumns(weightedPixels[..storedPixelCount], GridTotCount(volumeGeometry.value))
    {
      var row := RayRow(projectionGeometry.value, p, d);
      var i := 0;
      while i < |row|
        invariant 0 <= i <= |row|
        invariant weightedPixels[..i] == row[..i]
        invariant weightedPixels[i..] == old(weightedPixels[i..])
      {
        weightedPixels[i] := row[i];
        i := i + 1;
      }
      storedPixelCount := |row|;
      RayIndexInRange(projectionGeometry.value, p, d);
    }

    /**
     * `projectPoint`: the detectors whose ray has an entry at pixel
     * (pixelRow, pixelCol), one per entry, in ascending ray order.
     */
    function ProjectPoint(pixelRow: int, pixelCol: int): (ds: seq<Detector2D>)
      reads this
      requires Valid() && initialized
      ensures var pg := projectionGeometry.value;
        var pixel := PixelIndex(volumeGeometry.value, pixelRow, pixelCol);
        forall i :: 0 <= i < |ds| ==>
          && ds[i].angleIndex < pg.projectionAngleCount && ds[i].detectorIndex < pg.detectorCount
          && ds[i].index == RayIndex(pg.detectorCount, ds[i].angleIndex, ds[i].detectorIndex)
          && 0 <= pixel && PixelWeight(pixel as nat, ds[i].weight) in RayRow(pg, ds[i].angleIndex, ds[i].detectorIndex)
      ensures forall i, j :: 0 <= i < j < |ds| ==> ds[i].index < ds[j].index
      ensures var pg := projectionGeometry.value;
        var pixel := PixelIndex(volumeGeometry.value, pixelRow, pixelCol);
        forall p: nat, d: nat, w: real ::
          p < pg.projectionAngleCount && d < pg.detectorCount && 0 <= pixel &&
          PixelWeight(pixel as nat, w) in RayRow(pg, p, d) ==>
            Detector2D(RayIndex(pg.detectorCount, p, d), p, d, w) in ds
    {
      var pg := projectionGeometry.value;
      var pixel := PixelIndex(volumeGeometry.value, pixelRow, pixelCol);
      DetectorsOfPixelSound(pg, pixel);
      DetectorsOfPixelAscending(pg, pixel);
      DetectorsOfPixelComplete(pg, pixel);
      DetectorsOfPixel(pg, pixel)
    }

    /** `project`: every ray of every projection, projection-major, detector-minor. */
    method Project(policy: TracePolicy)
      requires Valid() && initialized
      modifies policy
      ensures policy.trace == old(policy.trace) + ProjectTrace(projectionGeometry.value, policy.prior)
    {
      var pg := projectionGeometry.value;
      for p := 0 to pg.projectionAngleCount
        invariant policy.trace == old(policy.trace) + ProjectionsTrace(pg, p, policy.prior)
      {
        ProjectSingleProjection(p, policy);
      }
      ProjectIsConcatenationOfProjections(pg, policy.prior);
    }

    /** `projectSingleProjection`: the rays of projection `p`, in detector order. */
    method ProjectSingleProjection(p: int, policy: TracePolicy)
      requires Valid() && initialized
      requires 0 <= p < projectionGeometry.value.projectionAngleCount
      modifies policy
      ensures policy.trace == old(policy.trace) + ProjectionTrace(projectionGeometry.value, p, policy.prior)
    {
      var pg := projectionGeometry.value;
      for d := 0 to pg.detectorCount
        invariant policy.trace == old(policy.trace) + DetectorsTrace(pg, p, d, policy.prior)
      {
        ProjectSingleRay(p, d, policy);
      }
      ProjectionIsConcatenationOfRays(pg, p, policy.prior);
    }

    /**
     * `projectSingleRay`: detector `d` of projection `p` only: prior, then, if
     * prior accepts the ray, one addWeight per entry of its row and posterior.
     */
    method ProjectSingleRay(p: int, d: int, policy: TracePolicy)
      requires Valid() && initialized
      requires 0 <= p < projectionGeometry.value.projectionAngleCount
      requires 0 <= d < projectionGeometry.value.detectorCount
      modifies policy
      ensures policy.trace == old(policy.trace) + SingleRayTrace(projectionGeometry.value, p, d, policy.prior)
    {
      var pg := projectionGeometry.value;
      var ray := RayIndex(pg.detectorCount, p, d);
      var row := RayRow(pg, p, d);
      var accepted := policy.Prior(ray);
      if accepted {
        var i := 0;
        while i < |row|
          invariant 0 <= i <= |row|
          invariant policy.trace == old(policy.trace) + [PriorCall(ray)] + WeightEvents(ray, row[..i])
        {
          assert WeightEvents(ray, row[..i + 1]) == WeightEvents(ray, row[..i]) + [AddWeightCall(ray, row[i].pixelIndex, row[i].weight)];
          policy.AddWeight(ray, row[i].pixelIndex, row[i].weight);
          i := i + 1;
        }
        assert row[..i] == row;
        policy.Posterior(ray);
      }
    }

    /** `projectSingleVoxel`: declared with an empty body; the policy receives no calls. */
    method ProjectSingleVoxel(pixelRow: int, pixelCol: int, policy: TracePolicy)
      ensures policy.trace == old(policy.trace)
    {
    }

    /** `projectAllVoxels`: declared with an empty body; the policy receives no calls. */
    method ProjectAllVoxels(policy: TracePolicy)
      ensures policy.trace == old(policy.trace)
    {
    }
  }
}
