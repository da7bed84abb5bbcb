/**
 * The policy-driven traversal, specified as the sequence of policy calls it
 * issues. For each ray the engine calls prior(ray); when prior accepts the
 * ray, it calls addWeight(ray, pixel, weight) once per stored entry of the
 * ray's row, in row order, and then posterior(ray). A rejected ray gets no
 * further calls.
 */
module Traversal {
  import opened SparseMatrix
  import opened Geometry

  /** One call into the policy. */
  datatype Event =
    | PriorCall(ray: nat)
    | AddWeightCall(ray: nat, pixel: nat, weight: real)
    | PosteriorCall(ray: nat)

  /** The policy that accepts every ray. */
  function AcceptAll(ray: nat): bool { true }

  /** The addWeight calls for the entries of one row, in row order. */
  function WeightEvents(ray: nat, row: seq<PixelWeight>): (t: seq<Event>)
    ensures |t| == |row|
  {
    seq(|row|, i requires 0 <= i < |row| => AddWeightCall(ray, row[i].pixelIndex, row[i].weight))
  }

  /** The calls issued for one ray, given prior's answer for it. */
  function RayTrace(m: Matrix, ray: nat, accepted: bool): seq<Event>
    requires Shaped(m) && ray < m.rowCount
  {
    if accepted then [PriorCall(ray)] + WeightEvents(ray, m.rows[ray]) + [PosteriorCall(ray)]
    else [PriorCall(ray)]
  }

  /** The calls issued for rays `lo` up to `hi`, in ascending ray order. */
  function RowsTrace(m: Matrix, lo: nat, hi: nat, prior: nat -> bool): seq<Event>
    requires Shaped(m) && lo <= hi <= m.rowCount
    decreases hi
  {
    if lo == hi then [] else RowsTrace(m, lo, hi - 1, prior) + RayTrace(m, hi - 1, prior(hi - 1))
  }

  /** project: every ray of every projection, projection-major, detector-minor. */
  function ProjectTrace(pg: ProjectionGeometry, prior: nat -> bool): seq<Event>
    requires ProjectionGeometryValid(pg)
  {
    RowsTrace(pg.matrix, 0, RayCount(pg), prior)
  }

  /** projectSingleProjection: the rays of projection `p`. */
  function ProjectionTrace(pg: ProjectionGeometry, p: nat, prior: nat -> bool): seq<Event>
    requires ProjectionGeometryValid(pg) && p < pg.projectionAngleCount
  {
    RayIndexInRange(pg, p, pg.detectorCount);
    RowsTrace(pg.matrix, RayIndex(pg.detectorCount, p, 0), RayIndex(pg.detectorCount, p, pg.detectorCount), prior)
  }

  /** projectSingleRay: detector `d` of projection `p` only. */
  function SingleRayTrace(pg: ProjectionGeometry, p: nat, d: nat, prior: nat -> bool): seq<Event>
    requires ProjectionGeometryValid(pg) && p < pg.projectionAngleCount && d < pg.detectorCount
  {
    RayIndexInRange(pg, p, d);
    var ray := RayIndex(pg.detectorCount, p, d);
    RayTrace(pg.matrix, ray, prior(ray))
  }

  /** The calls of projections `0` up to `k`, one projection after the other. */
  function ProjectionsTrace(pg: ProjectionGeometry, k: nat, prior: nat -> bool): seq<Event>
    requires ProjectionGeometryValid(pg) && k <= pg.projectionAngleCount
  {
    if k == 0 then [] else ProjectionsTrace(pg, k - 1, prior) + ProjectionTrace(pg, k - 1, prior)
  }

  /** The calls of detectors `0` up to `k` of projection `p`, one ray after the other. */
  function DetectorsTrace(pg: ProjectionGeometry, p: nat, k: nat, prior: nat -> bool): seq<Event>
    requires ProjectionGeometryValid(pg) && p < pg.projectionAngleCount && k <= pg.detectorCount
  {
    if k == 0 then [] else DetectorsTrace(pg, p, k - 1, prior) + SingleRayTrace(pg, p, k - 1, prior)
  }

  /** The calls of `t` that concern ray `ray`, in order. */
  function EventsOf(t: seq<Event>, ray: nat): (r: seq<Event>)
    ensures |r| <= |t|
    ensures forall i :: 0 <= i < |r| ==> r[i].ray == ray
  {
    if t == [] then []
    else (if t[0].ray == ray then [t[0]] else []) + EventsOf(t[1..], ray)
  }

  /** Number of addWeight calls in `t`. */
  function AddWeightCount(t: seq<Event>): (n: nat)
    ensures n <= |t|
  {
    if t == [] then 0
    else (if t[0].AddWeightCall? then 1 else 0) + AddWeightCount(t[1..])
  }

  // ---------------------------------------------------------------------
  // Slicing: project is the concatenation of its projection slices, and a
  // projection slice is the concatenation of its single-ray slices.
  // ---------------------------------------------------------------------

  /** The traversal of a range of rays splits at any intermediate ray. */
  lemma {:induction false} RowsTraceSplit(m: Matrix, lo: nat, mid: nat, hi: nat, prior: nat -> bool)
    requires Shaped(m) && lo <= mid <= hi <= m.rowCount
    ensures RowsTrace(m, lo, hi, prior) == RowsTrace(m, lo, mid, prior) + RowsTrace(m, mid, hi, prior)
    decreases hi
  {
    if mid < hi {
      RowsTraceSplit(m, lo, mid, hi - 1, prior);
      var front := RowsTrace(m, lo, mid, prior);
      var middle := RowsTrace(m, mid, hi - 1, prior);
      var last := RayTrace(m, hi - 1, prior(hi - 1));
      assert RowsTrace(m, lo, hi, prior) == (front + middle) + last;
      assert RowsTrace(m, mid, hi, prior) == middle + last;
      assert (front + middle) + last == front + (middle + last);
    } else {
      assert RowsTrace(m, mid, hi, prior) == [];
      assert RowsTrace(m, lo, hi, prior) + [] == RowsTrace(m, lo, hi, prior);
    }
  }

  lemma {:induction false} ProjectionsTraceIsPrefix(pg: ProjectionGeometry, k: nat, prior: nat -> bool)
    requires ProjectionGeometryValid(pg) && k <= pg.projectionAngleCount
    ensures FirstRay(pg.detectorCount, k) <= RayCount(pg)
    ensures ProjectionsTrace(pg, k, prior) == RowsTrace(pg.matrix, 0, FirstRay(pg.detectorCount, k), prior)
  {
    ProjectionStartInRange(pg, k);
    if k > 0 {
      ProjectionsTraceIsPrefix(pg, k - 1, prior);
      RayIndexInRange(pg, k - 1, pg.detectorCount);
      RowsTraceSplit(pg.matrix, 0, FirstRay(pg.detectorCount, k - 1), FirstRay(pg.detectorCount, k), prior);
    }
  }

  /** project issues exactly the calls of projectSingleProjection(0), ..., projectSingleProjection(last), in that order. */
  lemma ProjectIsConcatenationOfProjections(pg: ProjectionGeometry, prior: nat -> bool)
    requires ProjectionGeometryValid(pg)
    ensures ProjectTrace(pg, prior) == ProjectionsTrace(pg, pg.projectionAngleCount, prior)
  {
    ProjectionsTraceIsPrefix(pg, pg.projectionAngleCount, prior);
  }

  lemma {:induction false} DetectorsTraceIsPrefix(pg: ProjectionGeometry, p: nat, k: nat, prior: nat -> bool)
    requires ProjectionGeometryValid(pg) && p < pg.projectionAngleCount && k <= pg.detectorCount
    ensures RayIndex(pg.detectorCount, p, k) <= RayCount(pg)
    ensures DetectorsTrace(pg, p, k, prior)
         == RowsTrace(pg.matrix, RayIndex(pg.detectorCount, p, 0), RayIndex(pg.detectorCount, p, k), prior)
  {
    RayIndexInRange(pg, p, k);
    if k > 0 {
      DetectorsTraceIsPrefix(pg, p, k - 1, prior);
    }
  }

  /** projectSingleProjection(p) issues exactly the calls of projectSingleRay(p, 0), ..., projectSingleRay(p, last). */
  lemma ProjectionIsConcatenationOfRays(pg: ProjectionGeometry, p: nat, prior: nat -> bool)
    requires ProjectionGeometryValid(pg) && p < pg.projectionAngleCount
    ensures ProjectionTrace(pg, p, prior) == DetectorsTrace(pg, p, pg.detectorCount, prior)
  {
    DetectorsTraceIsPrefix(pg, p, pg.detectorCount, prior);
  }

  // ---------------------------------------------------------------------
  // The per-ray contract: for every ray, the calls that concern it.
  // ---------------------------------------------------------------------

  lemma {:induction false} EventsOfAppend(a: seq<Event>, b: seq<Event>, ray: nat)
    ensures EventsOf(a + b, ray) == EventsOf(a, ray) + EventsOf(b, ray)
  {
    if a != [] {
      assert (a + b)[1..] == a[1..] + b;
      EventsOfAppend(a[1..], b, ray);
    } else {
      assert a + b == b;
    }
  }

  lemma {:induction false} EventsOfUniform(t: seq<Event>, owner: nat, ray: nat)
    requires forall i :: 0 <= i < |t| ==> t[i].ray == owner
    ensures EventsOf(t, ray) == if owner == ray then t else []
  {
    if t != [] {
      EventsOfUniform(t[1..], owner, ray);
      assert t == [t[0]] + t[1..];
    }
  }

  lemma EventsOfRayTrace(m: Matrix, owner: nat, accepted: bool, ray: nat)
    requires Shaped(m) && owner < m.rowCount
    ensures EventsOf(RayTrace(m, owner, accepted), ray) == if owner == ray then RayTrace(m, owner, accepted) else []
  {
    var t := RayTrace(m, owner, accepted);
    assert forall i :: 0 <= i < |t| ==> t[i].ray == owner;
    EventsOfUniform(t, owner, ray);
  }

  /** Appending one ray's calls to a trace adds them to the calls concerning that ray and no other. */
  lemma EventsOfAppendRay(front: seq<Event>, m: Matrix, owner: nat, accepted: bool, ray: nat)
    requires Shaped(m) && owner < m.rowCount
    ensures EventsOf(front + RayTrace(m, owner, accepted), ray)
         == EventsOf(front, ray) + (if ray == owner then RayTrace(m, owner, accepted) else [])
  {
    var last := RayTrace(m, owner, accepted);
    EventsOfAppend(front, last, ray);
    EventsOfRayTrace(m, owner, accepted, ray);
  }

  /** Extending the range by one ray: the calls concerning `ray` gain that ray's bracket when it is the new ray. */
  lemma EventsOfRowsTraceStep(m: Matrix, lo: nat, hi: nat, prior: nat -> bool, ray: nat)
    requires Shaped(m) && lo < hi <= m.rowCount
    ensures EventsOf(RowsTrace(m, lo, hi, prior), ray)
         == EventsOf(RowsTrace(m, lo, hi - 1, prior), ray) + (if ray == hi - 1 then RayTrace(m, ray, prior(ray)) else [])
  {
    var front := RowsTrace(m, lo, hi - 1, prior);
    assert RowsTrace(m, lo, hi, prior) == front + RayTrace(m, hi - 1, prior(hi - 1));
    EventsOfAppendRay(front, m, hi - 1, prior(hi - 1), ray);
  }

  /** Within a range of rays, the calls concerning one ray are exactly that ray's own bracket. */
  lemma {:induction false} EventsOfRowsTrace(m: Matrix, lo: nat, hi: nat, prior: nat -> bool, ray: nat)
    requires Shaped(m) && lo <= hi <= m.rowCount
    ensures EventsOf(RowsTrace(m, lo, hi, prior), ray) == if lo <= ray < hi then RayTrace(m, ray, prior(ray)) else []
    decreases hi
  {
    if lo < hi {
      EventsOfRowsTrace(m, lo, hi - 1, prior, ray);
      EventsOfRowsTraceStep(m, lo, hi, prior, ray);
      if ray == hi - 1 {
        assert EventsOf(RowsTrace(m, lo, hi - 1, prior), ray) == [];
        assert [] + RayTrace(m, ray, prior(ray)) == RayTrace(m, ray, prior(ray));
      } else {
        assert EventsOf(RowsTrace(m, lo, hi - 1, prior), ray) + [] == EventsOf(RowsTrace(m, lo, hi - 1, prior), ray);
      }
    }
  }

  /**
   * project visits every ray exactly once: each ray gets one prior call; an
   * accepted ray then gets one addWeight call per stored entry of its row, in
   * row order, and one posterior call (also when the row is empty); a ray that
   * prior rejects gets nothing more. Rays outside the geometry get no calls.
   */
  lemma ProjectPerRay(pg: ProjectionGeometry, prior: nat -> bool, ray: nat)
    requires ProjectionGeometryValid(pg)
    ensures ray < RayCount(pg) && prior(ray) ==>
      EventsOf(ProjectTrace(pg, prior), ray)
        == [PriorCall(ray)] + WeightEvents(ray, pg.matrix.rows[ray]) + [PosteriorCall(ray)]
    ensures ray < RayCount(pg) && !prior(ray) ==> EventsOf(ProjectTrace(pg, prior), ray) == [PriorCall(ray)]
    ensures ray >= RayCount(pg) ==> EventsOf(ProjectTrace(pg, prior), ray) == []
  {
    EventsOfRowsTrace(pg.matrix, 0, RayCount(pg), prior, ray);
  }

  /** The addWeight calls for a ray name that ray's entries exactly, in strictly ascending pixel order. */
  lemma WeightEventsAscending(m: Matrix, ray: nat)
    requires Valid(m) && ray < m.rowCount
    ensures forall i, j :: 0 <= i < j < |WeightEvents(ray, m.rows[ray])| ==>
              WeightEvents(ray, m.rows[ray])[i].pixel < WeightEvents(ray, m.rows[ray])[j].pixel
    ensures forall i :: 0 <= i < |WeightEvents(ray, m.rows[ray])| ==>
              WeightEvents(ray, m.rows[ray])[i].pixel < m.columnCount
  {
    assert StrictlyAscending(m.rows[ray]) && WithinColumns(m.rows[ray], m.columnCount);
  }

  // ---------------------------------------------------------------------
  // Counting: the number of addWeight calls of a traversal that accepts
  // every ray is the number of stored entries it covers.
  // ---------------------------------------------------------------------

  lemma {:induction false} AddWeightCountAppend(a: seq<Event>, b: seq<Event>)
    ensures AddWeightCount(a + b) == AddWeightCount(a) + AddWeightCount(b)
  {
    if a != [] {
      assert (a + b)[1..] == a[1..] + b;
      AddWeightCountAppend(a[1..], b);
    } else {
      assert a + b == b;
    }
  }

  lemma {:induction false} AddWeightCountWeights(ray: nat, row: seq<PixelWeight>)
    ensures AddWeightCount(WeightEvents(ray, row)) == |row|
  {
    if row != [] {
      assert WeightEvents(ray, row)[1..] == WeightEvents(ray, row[1..]);
      AddWeightCountWeights(ray, row[1..]);
    }
  }

  /** An accepted ray issues exactly one `addWeight` per stored entry of its row. */
  lemma AddWeightCountRay(m: Matrix, ray: nat)
    requires Shaped(m) && ray < m.rowCount
    ensures AddWeightCount(RayTrace(m, ray, true)) == RowNnz(m, ray)
  {
    assert AddWeightCount([PriorCall(ray)]) == 0 && AddWeightCount([PosteriorCall(ray)]) == 0;
    var row := m.rows[ray];
    assert RayTrace(m, ray, true) == ([PriorCall(ray)] + WeightEvents(ray, row)) + [PosteriorCall(ray)];
    AddWeightCountWeights(ray, row);
    AddWeightCountAppend([PriorCall(ray)], WeightEvents(ray, row));
    AddWeightCountAppend([PriorCall(ray)] + WeightEvents(ray, row), [PosteriorCall(ray)]);
  }

  /** Extending the range by one accepted ray adds that ray's stored entries to the count. */
  lemma AddWeightCountRowsStep(m: Matrix, lo: nat, hi: nat)
    requires Shaped(m) && lo < hi <= m.rowCount
    ensures AddWeightCount(RowsTrace(m, lo, hi, AcceptAll))
         == AddWeightCount(RowsTrace(m, lo, hi - 1, AcceptAll)) + RowNnz(m, hi - 1)
  {
    var front := RowsTrace(m, lo, hi - 1, AcceptAll);
    var last := RayTrace(m, hi - 1, true);
    assert AcceptAll(hi - 1);
    assert RowsTrace(m, lo, hi, AcceptAll) == front + last;
    AddWeightCountAppend(front, last);
    AddWeightCountRay(m, hi - 1);
  }

  lemma AddWeightCountRows(m: Matrix, lo: nat, hi: nat)
    requires Shaped(m) && lo <= hi <= m.rowCount
    ensures AddWeightCount(RowsTrace(m, lo, hi, AcceptAll)) == NnzSum(m, lo, hi)
    decreases hi
  {
    if lo < hi {
      AddWeightCountRows(m, lo, hi - 1);
      AddWeightCountRowsStep(m, lo, hi);
    } else {
      assert RowsTrace(m, lo, hi, AcceptAll) == [];
    }
  }
}
