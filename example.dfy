/**
 * A worked instance: two projections of two detectors (rays 0..3) over a
 * 2 x 2 volume (pixels 0..3), with rows {0: 1.0, 2: 0.5}, {1: 2.0}, {} and {3: 1.0}.
 */
module Example {
  import opened SparseMatrix
  import opened Geometry
  import opened Traversal
  import opened Projector

  function ExampleGeometry(): ProjectionGeometry {
    ProjectionGeometry(2, 2, Matrix(4, 4, [
      [PixelWeight(0, 1.0), PixelWeight(2, 0.5)],
      [PixelWeight(1, 2.0)],
      [],
      [PixelWeight(3, 1.0)]]))
  }

  function ExampleVolume(): VolumeGeometry {
    VolumeGeometry(2, 2)
  }

  /** The worked instance passes the initialisation check. */
  lemma ExampleIsCompatible()
    ensures Compatible(ExampleGeometry(), ExampleVolume())
  {
  }

  /** Weight counts per projection: three entries for projection 0, one for projection 1. */
  lemma ExampleWeightCounts()
    ensures ProjectionGeometryValid(ExampleGeometry())
    ensures |ProjectionWeights(ExampleGeometry(), 0)| == 3
    ensures |ProjectionWeights(ExampleGeometry(), 1)| == 1
  {
    var m := ExampleGeometry().matrix;
    assert RowsWeights(m, 0, 2) == RowsWeights(m, 0, 1) + m.rows[1] == m.rows[0] + m.rows[1];
    assert RowsWeights(m, 2, 4) == RowsWeights(m, 2, 3) + m.rows[3] == m.rows[2] + m.rows[3];
  }

  /** The entries of ray (0, 0), in pixel order. */
  lemma ExampleSingleRay()
    ensures ProjectionGeometryValid(ExampleGeometry())
    ensures RayRow(ExampleGeometry(), 0, 0) == [PixelWeight(0, 1.0), PixelWeight(2, 0.5)]
  {
  }

  /** Pixel 3 (grid point (1, 1)) is seen by detector 1 of projection 1 only. */
  lemma ExamplePoint()
    ensures ProjectionGeometryValid(ExampleGeometry())
    ensures DetectorsOfPixel(ExampleGeometry(), PixelIndex(ExampleVolume(), 1, 1)) == [Detector2D(3, 1, 1, 1.0)]
  {
  }

  /** project with every ray accepted: four addWeight calls, and the empty ray 2 still gets its posterior call. */
  lemma ExampleProjectTrace()
    ensures ProjectionGeometryValid(ExampleGeometry())
    ensures ProjectTrace(ExampleGeometry(), AcceptAll) == [
      PriorCall(0), AddWeightCall(0, 0, 1.0), AddWeightCall(0, 2, 0.5), PosteriorCall(0),
      PriorCall(1), AddWeightCall(1, 1, 2.0), PosteriorCall(1),
      PriorCall(2), PosteriorCall(2),
      PriorCall(3), AddWeightCall(3, 3, 1.0), PosteriorCall(3)]
  {
  }
}
