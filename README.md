# Sparse-matrix 2D projector — a Dafny model

This project models `CSparseMatrixProjector2D` of the ASTRA Toolbox: a 2D
tomographic projector whose ray/pixel weights are the entries of an arbitrary
sparse matrix carried by its projection geometry. Rows of the matrix are rays
(projection × detector), columns are volume pixels. The model covers the
projector's lifecycle (default clearing, `initialize`, `clear`, the `_check`
of matrix against volume), its queries (`getProjectionWeightsCount`,
`computeSingleRayWeights`, `projectPoint`, `getType`) and its policy-driven
traversals (`project`, `projectSingleProjection`, `projectSingleRay`, and the
empty `projectSingleVoxel` / `projectAllVoxels`).

Layout, one module per component:

- `wrappers.dfy` — `Option`, standing for a geometry pointer that may be null.
- `sparse_matrix.dfy` — `SparseMatrix`: a CSR-style matrix (`rowCount`,
  `columnCount`, one row of `(pixelIndex, weight)` entries per ray, pixel
  indices strictly ascending and below `columnCount`), row sums, and a
  column-ordered enumeration used by the point query.
- `geometry.dfy` — `Geometry`: projection geometry (projection count, a
  uniform detector count, the matrix) and volume geometry (grid columns and
  rows); the ray index `p * detectorCount + d` and the row-major pixel index
  `row * gridColCount + col`, with their inverses and round-trip lemmas.
- `traversal.dfy` — `Traversal`: the policy calls `prior`, `addWeight`,
  `posterior` as events, the call sequence of each traversal as a function,
  and the lemmas about those sequences.
- `projector.dfy` — `Projector`: the class `SparseMatrixProjector2D` (an
  initialised flag and value copies of the two geometries), the recording
  policy `TracePolicy`, and the point-query lemmas.
- `example.dfy` — `Example`: a worked instance (two projections of two
  detectors over a 2 × 2 volume).

Modelling choices:

- Weights are `real` and opaque: the projector only copies them and hands them to the policy.
- The policy is modelled by `TracePolicy`, which records every call it receives. Its answer to
  `prior(ray)` is a function of the ray fixed when the policy is built. A ray for which `prior`
  answers false receives no `addWeight` and no `posterior` call. This skip is the usual ASTRA
  policy convention; the header itself does not state it.
- `initialize` clears an initialised object first, stores value copies of both geometries, and sets
  the initialised flag to the result of `_check`. It returns that flag.
- `_check` holds when both geometries are present, the matrix is well formed with one row per ray,
  and the matrix column count equals the volume's pixel count (width × height).
- `GetProjectionWeightsCount`, `ComputeSingleRayWeights`, `ProjectPoint`, `Project`,
  `ProjectSingleProjection` and `ProjectSingleRay` require the initialised state. `GetType`,
  `ProjectSingleVoxel` and `ProjectAllVoxels` have no precondition.
- The ray-range traces of `Traversal` (`RayTrace`, `RowsTrace` and their lemmas) need only the
  matrix shape (`SparseMatrix.Shaped`: one stored row per declared row). The projection-level
  traces (`ProjectTrace`, `ProjectionTrace`, `SingleRayTrace`, `ProjectionsTrace`, `DetectorsTrace`)
  and their lemmas require a valid projection geometry, which includes sorted rows.
- The point query returns, for each matrix entry at the pixel, its ray index, projection index,
  detector index and weight, in ascending ray order. The column lookup scans the rows in order.

## Model

| member | source | states |
|---|---|---|
| `Projector.SparseMatrixProjector2D.constructor` | include/astra/SparseMatrixProjector2D.h:58-77 | the default constructor's initial clearing: no geometries, uninitialised |
| `Projector.SparseMatrixProjector2D.WithGeometries` | include/astra/SparseMatrixProjector2D.h:79-85 | stores copies of both geometries; initialised exactly when they are present and compatible |
| `Projector.SparseMatrixProjector2D.Initialize` | include/astra/SparseMatrixProjector2D.h:98-105 | stores copies of the given geometries; returns success, and is initialised, exactly when both are present, the matrix is well formed with one row per ray, and its column count equals width × height; keeps the object invariant |
| `Projector.SparseMatrixProjector2D.Check` | include/astra/SparseMatrixProjector2D.h:61-67 | holds exactly when both geometries are present, the matrix is valid with one row per ray, and its column count equals width × height |
| `Projector.Compatible` | include/astra/SparseMatrixProjector2D.h:61-67 | when the geometries pass the check, every ray has a matrix row and every stored entry names a pixel of the volume |
| `Projector.SparseMatrixProjector2D.Clear` | include/astra/SparseMatrixProjector2D.h:107-109 | releases both geometries and returns to the uninitialised state |
| `Projector.SparseMatrixProjector2D.GetType` | include/astra/SparseMatrixProjector2D.h:201-204 | returns the static type identifier, `"sparse_matrix"` |
| `Projector.SparseMatrixProjector2D.GetProjectionWeightsCount` | include/astra/SparseMatrixProjector2D.h:111-116 | equals the length of all entries of the projection's rays laid end to end, and the number of addWeight calls `projectSingleProjection(p)` makes when every ray is accepted |
| `SparseMatrix.RowsWeightsLength` | include/astra/SparseMatrixProjector2D.h:111-116 | the storage for a range of rows is the sum of their non-zero counts |
| `Traversal.AddWeightCountRows` | include/astra/SparseMatrixProjector2D.h:111-116 | a traversal of a range of rays that accepts every ray issues one addWeight per stored entry, the sum of the rows' non-zero counts |
| `Traversal.AddWeightCountRay` | include/astra/SparseMatrixProjector2D.h:111-116 | an accepted ray issues exactly one addWeight per stored entry of its row |
| `Traversal.AddWeightCountRowsStep` | include/astra/SparseMatrixProjector2D.h:111-116 | extending a fully accepted ray range by one ray adds that ray's non-zero count to the addWeight count |
| `Projector.SparseMatrixProjector2D.ComputeSingleRayWeights` | include/astra/SparseMatrixProjector2D.h:118-134 | given more room than the ray has entries, stores exactly the entries of row (p, d), in row order, in slots `[0, stored)`, leaves the rest of the buffer untouched, and returns `stored` = the row's non-zero count < `maxPixelCount`; the stored pixels are strictly ascending and inside the volume |
| `Projector.SparseMatrixProjector2D.ProjectPoint` | include/astra/SparseMatrixProjector2D.h:136-142 | every detector returned has projection and detector in range and its ray has a matrix entry with that weight at the point's pixel; every such entry is returned; rays come out strictly ascending, so each entry is returned once |
| `Projector.DetectorsOfPixelSound` | include/astra/SparseMatrixProjector2D.h:136-142 | each detector reported for a pixel is a stored entry of that pixel's column, with the ray mapped back to its (projection, detector) |
| `Projector.DetectorsOfPixelComplete` | include/astra/SparseMatrixProjector2D.h:136-142 | each stored entry of a pixel's column is reported as the detector of its ray |
| `Projector.DetectorsOfPixelAscending` | include/astra/SparseMatrixProjector2D.h:136-142 | the reported detectors are in strictly ascending ray order |
| `Projector.DetectorsOfPixelOutside` | include/astra/SparseMatrixProjector2D.h:136-142 | a pixel index outside the volume is influenced by no detector |
| `Projector.ProjectPointRoundTrip` | include/astra/SparseMatrixProjector2D.h:136-142 | every entry of ray (p, d) is reported by `projectPoint` at its pixel's grid point, as detector d of projection p with the entry's weight |
| `SparseMatrix.FindPixel` | include/astra/SparseMatrixProjector2D.h:136-142 | the lookup of a pixel in a row finds a stored entry for it, or there is none |
| `SparseMatrix.FindPixelExact` | include/astra/SparseMatrixProjector2D.h:136-142 | in a sorted row the lookup returns exactly the entry stored for the pixel |
| `SparseMatrix.ColumnEntriesMembership` | include/astra/SparseMatrixProjector2D.h:136-142 | the column enumeration holds (ray, w) iff row `ray` stores weight w at the column |
| `SparseMatrix.ColumnEntriesAscending` | include/astra/SparseMatrixProjector2D.h:136-142 | the column enumeration lists rows in range and strictly ascending |
| `SparseMatrix.ColumnEntriesOutOfRange` | include/astra/SparseMatrixProjector2D.h:136-142 | a column outside the matrix has no entries |
| `Projector.SparseMatrixProjector2D.Project` | include/astra/SparseMatrixProjector2D.h:144-150 | the policy receives exactly the call sequence of every ray of every projection, projection-major |
| `Traversal.ProjectPerRay` | include/astra/SparseMatrixProjector2D.h:144-150 | in `project`, the calls concerning an accepted ray are prior, one addWeight per entry in row order, then posterior (even for an empty row); a rejected ray gets only its prior call; rays outside the geometry get none |
| `Traversal.EventsOfRowsTrace` | include/astra/SparseMatrixProjector2D.h:144-150 | in a traversal of a ray range, the calls concerning one ray are exactly that ray's own bracket |
| `Traversal.EventsOfAppendRay` | include/astra/SparseMatrixProjector2D.h:144-150 | appending one ray's bracket to a call sequence adds calls concerning that ray only |
| `Traversal.EventsOfRowsTraceStep` | include/astra/SparseMatrixProjector2D.h:144-150 | extending a ray range by one ray adds calls concerning only that ray, namely its bracket |
| `Traversal.WeightEventsAscending` | include/astra/SparseMatrixProjector2D.h:144-150 | the addWeight calls of a ray visit its pixels in strictly ascending order, all below the matrix's column count (the volume's pixel count once `Compatible` holds) |
| `Projector.TracePolicy.Prior` | include/astra/SparseMatrixProjector2D.h:147 | the policy answers prior with its fixed decision and records the call |
| `Projector.TracePolicy.AddWeight` | include/astra/SparseMatrixProjector2D.h:147 | the policy records the addWeight call |
| `Projector.TracePolicy.Posterior` | include/astra/SparseMatrixProjector2D.h:147 | the policy records the posterior call |
| `Projector.SparseMatrixProjector2D.ProjectSingleProjection` | include/astra/SparseMatrixProjector2D.h:152-159 | the policy receives exactly the call sequence of the rays of projection p, in detector order |
| `Traversal.ProjectIsConcatenationOfProjections` | include/astra/SparseMatrixProjector2D.h:152-159 | `project` issues the calls of `projectSingleProjection(0)`, …, `projectSingleProjection(last)`, in that order |
| `Traversal.RowsTraceSplit` | include/astra/SparseMatrixProjector2D.h:152-159 | the traversal of a ray range is the traversal of its first part followed by that of the rest |
| `Traversal.ProjectionsTraceIsPrefix` | include/astra/SparseMatrixProjector2D.h:152-159 | the first k projection slices together are the traversal of the first k projections' rays |
| `Projector.SparseMatrixProjector2D.ProjectSingleRay` | include/astra/SparseMatrixProjector2D.h:161-169 | the policy receives prior for ray (p, d), then, if accepted, one addWeight per entry of its row in row order and posterior |
| `Traversal.ProjectionIsConcatenationOfRays` | include/astra/SparseMatrixProjector2D.h:161-169 | `projectSingleProjection(p)` issues the calls of `projectSingleRay(p, 0)`, …, `projectSingleRay(p, last)`, in that order |
| `Traversal.DetectorsTraceIsPrefix` | include/astra/SparseMatrixProjector2D.h:161-169 | the first k single-ray slices of projection p together are the traversal of its first k rays |
| `Projector.SparseMatrixProjector2D.ProjectSingleVoxel` | include/astra/SparseMatrixProjector2D.h:171-179 | the policy receives no call |
| `Projector.SparseMatrixProjector2D.ProjectAllVoxels` | include/astra/SparseMatrixProjector2D.h:181-187 | the policy receives no call |
| `Geometry.RayIndexRoundTrip` | include/astra/SparseMatrixProjector2D.h:130-131 | (projection, detector) → ray → (projection, detector) is the identity |
| `Geometry.RayIndexInverse` | include/astra/SparseMatrixProjector2D.h:130-131 | ray → (projection, detector) → ray is the identity, and rays in range map to indices in range |
| `Geometry.RayIndexInRange` | include/astra/SparseMatrixProjector2D.h:130-131 | the rays of projection p form one block of the ray range, ending where projection p + 1 begins |
| `Geometry.FirstRayIsProduct` | include/astra/SparseMatrixProjector2D.h:130-131 | the row offset of projection p is p × detector count |
| `Geometry.RayCountIsProduct` | include/astra/SparseMatrixProjector2D.h:130-131 | the number of rays is projections × detectors |
| `Geometry.PixelIndexRoundTrip` | include/astra/SparseMatrixProjector2D.h:136-142 | (row, col) → pixel → (row, col) is the identity on the grid, and grid points map into the pixel range |
| `Geometry.PixelIndexInverse` | include/astra/SparseMatrixProjector2D.h:136-142 | pixel → (row, col) → pixel is the identity, and pixels in range map to grid points |
| `Example.ExampleIsCompatible` | include/astra/SparseMatrixProjector2D.h:98-105 | the worked instance passes `_check`: its matrix has one row per ray and one column per volume pixel |
| `Example.ExampleSingleRay` | include/astra/SparseMatrixProjector2D.h:118-134 | in the worked instance ray (0, 0) stores its two entries, the pixels in ascending order |
| `Example.ExampleWeightCounts` | include/astra/SparseMatrixProjector2D.h:111-116 | in the worked instance projection 0 needs 3 weights and projection 1 needs 1 |
| `Example.ExamplePoint` | include/astra/SparseMatrixProjector2D.h:136-142 | in the worked instance pixel (1, 1) is seen by detector 1 of projection 1 only, with weight 1.0 |
| `Example.ExampleProjectTrace` | include/astra/SparseMatrixProjector2D.h:144-150 | in the worked instance `project` makes 4 addWeight and 4 posterior calls; the empty ray still gets its posterior |

## Left out

- `initialize(const Config&)` and the XML/MATLAB configuration: configuration parsing belongs to external configuration and geometry types whose code is not part of this model.
- Registration with `CProjectorFactory`: only the identifier string is modelled. The definition of the static `type` is not part of this model; its value `"sparse_matrix"` is the one the MATLAB example uses.
- Hard copies, the destructor and pointer handling: geometries are value copies, and a null pointer is an absent `Option`.
- `SparseMatrix.h`, `SparseMatrixProjectionGeometry2D.h`, `Float32Data2D.h` and `Projector2D.h` are not part of this model. The matrix and geometries are the minimal abstractions above. Building a matrix from triples and a separate column index are not modelled; the point query scans the rows instead.
- Weights are `float32` in the source. Here they are `real`, with no floating-point reasoning, because the projector does no arithmetic on them.
- Index arithmetic uses unbounded integers; 32-bit `int` overflow of ray or pixel indices is not modelled.
- Concurrency: use of the projector by multithreaded reconstruction algorithms is outside this component.
- `Projector.TracePolicy.Prior`: a policy's answer to `prior` is fixed per ray in advance. A policy whose answer depends on its own accumulated state is not captured.
- `Projector.SparseMatrixProjector2D.ComputeSingleRayWeights`: keeps the header's caller contract (`maxPixelCount` must exceed the ray's pixel count) as a precondition. There is no buffer-too-small error result, because the header defines none.
- `Projector.SparseMatrixProjector2D.ProjectSingleVoxel` and `ProjectAllVoxels`: modelled as the empty bodies the header gives them, not as a "not supported" result.
- `Projector.SparseMatrixProjector2D.GetProjectionWeightsCount`, `ComputeSingleRayWeights`, `ProjectSingleProjection` and `ProjectSingleRay`: an out-of-range projection or detector index is a precondition violation, not an error result, because the header defines no error for it.
- `SparseMatrix.Valid`: an explicitly stored entry counts as a non-zero weight even when its value is `0.0`; the projector does not filter stored zeros, so such an entry is reported by the point query, counted by the weight count and passed to `addWeight`.
- `Projector.SparseMatrixProjector2D.ProjectPoint`: the pixel index of (row, col) is computed row-major without a range check, as the point's grid position. A column at or beyond the grid width therefore names a pixel of a later row. Points whose index falls outside the volume get no detectors.
- `Projector.SparseMatrixProjector2D.Initialize`: a failed `initialize` does not restore the earlier state. It clears an initialised object, stores the new geometries and leaves the initialised flag false.
