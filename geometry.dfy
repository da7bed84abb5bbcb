/**
 * The two geometries a sparse-matrix projector is built from, and the fixed
 * index conventions that tie them to the matrix: ray (row) index
 * `projection * detectorCount + detector` (projection-major), and row-major
 * pixel (column) index `pixelRow * gridColCount + pixelCol`.
 */
module Geometry {
  import opened SparseMatrix

  /** Projection geometry: projections with a uniform detector count, and the weight matrix it carries. */
  datatype ProjectionGeometry = ProjectionGeometry(projectionAngleCount: nat, detectorCount: nat, matrix: Matrix)

  /** Volume geometry: a pixel grid of gridColCount columns and gridRowCount rows. */
  datatype VolumeGeometry = VolumeGeometry(gridColCount: nat, gridRowCount: nat)

  /**
   * Row offset of projection `p`: the rays of the projections before it.
   * Written as repeated addition; FirstRayIsProduct shows it is
   * `p * detectorCount`.
   */
  function FirstRay(detectorCount: nat, p: nat): nat {
    if p == 0 then 0 else FirstRay(detectorCount, p - 1) + detectorCount
  }

  /** Total detector count: one ray per detector of every projection. */
  function RayCount(pg: ProjectionGeometry): nat {
    FirstRay(pg.detectorCount, pg.projectionAngleCount)
  }

  function GridTotCount(vg: VolumeGeometry): nat {
    vg.gridColCount * vg.gridRowCount
  }

  /** The projection geometry is initialised properly: a valid matrix with one row per ray. */
  predicate ProjectionGeometryValid(pg: ProjectionGeometry) {
    Valid(pg.matrix) && pg.matrix.rowCount == RayCount(pg)
  }

  /** Ray (row) index of detector `d` of projection `p`, projection-major. */
  function RayIndex(detectorCount: nat, p: nat, d: nat): nat {
    FirstRay(detectorCount, p) + d
  }

  function ProjectionOfRay(detectorCount: nat, ray: nat): nat
    requires detectorCount > 0
  {
    ray / detectorCount
  }

  function DetectorOfRay(detectorCount: nat, ray: nat): nat
    requires detectorCount > 0
  {
    ray % detectorCount
  }

  /** Row-major linear pixel index of grid point (row, col). */
  function PixelIndex(vg: VolumeGeometry, pixelRow: int, pixelCol: int): int {
    pixelRow * vg.gridColCount + pixelCol
  }

  function PixelRowOf(vg: VolumeGeometry, pixel: nat): nat
    requires vg.gridColCount > 0
  {
    pixel / vg.gridColCount
  }

  function PixelColOf(vg: VolumeGeometry, pixel: nat): nat
    requires vg.gridColCount > 0
  {
    pixel % vg.gridColCount
  }

  /** Quotient and remainder are unique: the base fact behind both index bijections. */
  lemma DivModUnique(n: nat, q1: nat, r1: nat, q2: nat, r2: nat)
    requires r1 < n && r2 < n
    requires q1 * n + r1 == q2 * n + r2
    ensures q1 == q2 && r1 == r2
  {
    if q1 > q2 {
      assert (q2 + 1) * n == q2 * n + n;
      MulMonotonic(q2 + 1, q1, n);
    } else if q1 < q2 {
      assert (q1 + 1) * n == q1 * n + n;
      MulMonotonic(q1 + 1, q2, n);
    }
  }

  /** A product grows with its first factor. */
  lemma MulMonotonic(a: nat, b: nat, n: nat)
    requires a <= b
    ensures a * n <= b * n
  {
    assert b * n == a * n + (b - a) * n;
  }

  /** The row offset is the product of the projection index and the detector count. */
  lemma {:induction false} FirstRayIsProduct(detectorCount: nat, p: nat)
    ensures FirstRay(detectorCount, p) == p * detectorCount
  {
    if p > 0 {
      FirstRayIsProduct(detectorCount, p - 1);
      assert p * detectorCount == (p - 1) * detectorCount + detectorCount;
    }
  }

  /** Later projections start later: a projection's rays end where the next projection's begin, or earlier. */
  lemma {:induction false} FirstRayMonotonic(detectorCount: nat, p: nat, q: nat)
    requires p < q
    ensures FirstRay(detectorCount, p) + detectorCount <= FirstRay(detectorCount, q)
  {
    if p + 1 < q {
      FirstRayMonotonic(detectorCount, p, q - 1);
    }
  }

  /** The total ray count is projections times detectors. */
  lemma RayCountIsProduct(pg: ProjectionGeometry)
    ensures RayCount(pg) == pg.projectionAngleCount * pg.detectorCount
  {
    FirstRayIsProduct(pg.detectorCount, pg.projectionAngleCount);
  }

  /** (projection, detector) -> ray -> (projection, detector) is the identity. */
  lemma RayIndexRoundTrip(detectorCount: nat, p: nat, d: nat)
    requires d < detectorCount
    ensures ProjectionOfRay(detectorCount, RayIndex(detectorCount, p, d)) == p
    ensures DetectorOfRay(detectorCount, RayIndex(detectorCount, p, d)) == d
  {
    var ray := RayIndex(detectorCount, p, d);
    FirstRayIsProduct(detectorCount, p);
    DivModUnique(detectorCount, ray / detectorCount, ray % detectorCount, p, d);
  }

  /** ray -> (projection, detector) -> ray is the identity, and a ray in range maps to indices in range. */
  lemma RayIndexInverse(pg: ProjectionGeometry, ray: nat)
    requires pg.detectorCount > 0 && ray < RayCount(pg)
    ensures ProjectionOfRay(pg.detectorCount, ray) < pg.projectionAngleCount
    ensures DetectorOfRay(pg.detectorCount, ray) < pg.detectorCount
    ensures RayIndex(pg.detectorCount, ProjectionOfRay(pg.detectorCount, ray), DetectorOfRay(pg.detectorCount, ray)) == ray
  {
    var dc := pg.detectorCount;
    var p := ray / dc;
    var d := ray % dc;
    assert ray == p * dc + d;
    RayCountIsProduct(pg);
    FirstRayIsProduct(dc, p);
    if p >= pg.projectionAngleCount {
      MulMonotonic(pg.projectionAngleCount, p, dc);
      assert false;
    }
  }

  /** The rays of projection `p` are the block [FirstRay(p), FirstRay(p + 1)) of the ray range. */
  lemma RayIndexInRange(pg: ProjectionGeometry, p: nat, d: nat)
    requires p < pg.projectionAngleCount && d <= pg.detectorCount
    ensures RayIndex(pg.detectorCount, p, d) <= RayCount(pg)
    ensures d < pg.detectorCount ==> RayIndex(pg.detectorCount, p, d) < RayCount(pg)
    ensures RayIndex(pg.detectorCount, p, pg.detectorCount) == RayIndex(pg.detectorCount, p + 1, 0)
  {
    FirstRayMonotonic(pg.detectorCount, p, pg.projectionAngleCount);
  }

  /** The first ray of projection `p` (or, for p == projectionAngleCount, one past the last ray) is in range. */
  lemma ProjectionStartInRange(pg: ProjectionGeometry, p: nat)
    requires p <= pg.projectionAngleCount
    ensures RayIndex(pg.detectorCount, p, 0) <= RayCount(pg)
  {
    if p < pg.projectionAngleCount {
      FirstRayMonotonic(pg.detectorCount, p, pg.projectionAngleCount);
    }
  }

  /** The stored entries of the row of ray (p, d). */
  function RayRow(pg: ProjectionGeometry, p: nat, d: nat): seq<PixelWeight>
    requires ProjectionGeometryValid(pg) && p < pg.projectionAngleCount && d < pg.detectorCount
  {
    RayIndexInRange(pg, p, d);
    pg.matrix.rows[RayIndex(pg.detectorCount, p, d)]
  }

  /** The stored entries of all rays of projection `p`, ray after ray. */
  function ProjectionWeights(pg: ProjectionGeometry, p: nat): seq<PixelWeight>
    requires ProjectionGeometryValid(pg) && p < pg.projectionAngleCount
  {
    RayIndexInRange(pg, p, pg.detectorCount);
    RowsWeights(pg.matrix, RayIndex(pg.detectorCount, p, 0), RayIndex(pg.detectorCount, p, pg.detectorCount))
  }

  /** (row, col) -> pixel -> (row, col) is the identity on the grid, and grid points map into the pixel range. */
  lemma PixelIndexRoundTrip(vg: VolumeGeometry, pixelRow: nat, pixelCol: nat)
    requires pixelRow < vg.gridRowCount && pixelCol < vg.gridColCount
    ensures 0 <= PixelIndex(vg, pixelRow, pixelCol) < GridTotCount(vg)
    ensures PixelRowOf(vg, PixelIndex(vg, pixelRow, pixelCol) as nat) == pixelRow
    ensures PixelColOf(vg, PixelIndex(vg, pixelRow, pixelCol) as nat) == pixelCol
  {
    var w := vg.gridColCount;
    var i := PixelIndex(vg, pixelRow, pixelCol);
    MulMonotonic(pixelRow + 1, vg.gridRowCount, w);
    DivModUnique(w, i / w, i % w, pixelRow, pixelCol);
  }

  /** pixel -> (row, col) -> pixel is the identity, and a pixel in range maps to a grid point. */
  lemma PixelIndexInverse(vg: VolumeGeometry, pixel: nat)
    requires pixel < GridTotCount(vg)
    ensures vg.gridColCount > 0
    ensures PixelRowOf(vg, pixel) < vg.gridRowCount && PixelColOf(vg, pixel) < vg.gridColCount
    ensures PixelIndex(vg, PixelRowOf(vg, pixel), PixelColOf(vg, pixel)) == pixel
  {
    var r := pixel / vg.gridColCount;
    if r >= vg.gridRowCount {
      MulMonotonic(vg.gridRowCount, r, vg.gridColCount);
    }
  }
}
