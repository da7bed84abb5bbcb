/**
 * A minimal CSR-style sparse weight matrix: one row per ray, one column per
 * volume pixel. Each row stores its (pixelIndex, weight) entries in strictly
 * ascending pixel order. Weights are kept as reals; the projector never does
 * arithmetic on them.
 */
module SparseMatrix {
  import opened Wrappers

  /** One stored entry of a row; the unit written by a single-ray query (SPixelWeight). */
  datatype PixelWeight = PixelWeight(pixelIndex: nat, weight: real)

  datatype Matrix = Matrix(rowCount: nat, columnCount: nat, rows: seq<seq<PixelWeight>>)

  predicate StrictlyAscending(row: seq<PixelWeight>) {
    forall i, j :: 0 <= i < j < |row| ==> row[i].pixelIndex < row[j].pixelIndex
  }

  predicate WithinColumns(row: seq<PixelWeight>, columnCount: nat) {
    forall i :: 0 <= i < |row| ==> row[i].pixelIndex < columnCount
  }

  /** The declared row count is the number of stored rows. */
  predicate Shaped(m: Matrix) {
    |m.rows| == m.rowCount
  }

  /** Matrix invariant: the declared shape is the stored shape, rows are sorted and in bounds. */
  predicate Valid(m: Matrix) {
    && Shaped(m)
    && forall r :: 0 <= r < |m.rows| ==> StrictlyAscending(m.rows[r]) && WithinColumns(m.rows[r], m.columnCount)
  }

  /** Number of stored entries of row `r` (the non-zero count; a stored 0.0 counts too). */
  function RowNnz(m: Matrix, r: nat): nat
    requires Shaped(m) && r < m.rowCount
  {
    |m.rows[r]|
  }

  /** Sum of the non-zero counts of rows `lo` up to, not including, `hi`. */
  function NnzSum(m: Matrix, lo: nat, hi: nat): nat
    requires Shaped(m) && lo <= hi <= m.rowCount
    decreases hi
  {
    if lo == hi then 0 else NnzSum(m, lo, hi - 1) + RowNnz(m, hi - 1)
  }

  /** The entries of rows `lo` up to `hi`, row after row, as a buffer would hold them. */
  function RowsWeights(m: Matrix, lo: nat, hi: nat): seq<PixelWeight>
    requires Shaped(m) && lo <= hi <= m.rowCount
    decreases hi
  {
    if lo == hi then [] else RowsWeights(m, lo, hi - 1) + m.rows[hi - 1]
  }

  /** The storage needed for the entries of a range of rows is the sum of their non-zero counts. */
  lemma {:induction false} RowsWeightsLength(m: Matrix, lo: nat, hi: nat)
    requires Shaped(m) && lo <= hi <= m.rowCount
    ensures |RowsWeights(m, lo, hi)| == NnzSum(m, lo, hi)
    decreases hi
  {
    if lo < hi {
      RowsWeightsLength(m, lo, hi - 1);
    }
  }

  /** The weight stored for pixel `c` in a row, if the row has an entry for it. */
  function FindPixel(row: seq<PixelWeight>, c: int): (w: Option<real>)
    ensures w.Some? ==> c >= 0 && PixelWeight(c as nat, w.value) in row
    ensures w.None? ==> forall i :: 0 <= i < |row| ==> row[i].pixelIndex != c
  {
    if row == [] then None
    else if row[|row| - 1].pixelIndex == c then Some(row[|row| - 1].weight)
    else FindPixel(row[..|row| - 1], c)
  }

  /** In a sorted row a pixel has at most one entry, so the lookup finds exactly that entry. */
  lemma FindPixelExact(row: seq<PixelWeight>, c: nat, w: real)
    requires StrictlyAscending(row)
    ensures FindPixel(row, c) == Some(w) <==> PixelWeight(c, w) in row
  {
    if PixelWeight(c, w) in row {
      var i :| 0 <= i < |row| && row[i] == PixelWeight(c, w);
      match FindPixel(row, c)
      case None =>
      case Some(v) =>
        var j :| 0 <= j < |row| && row[j] == PixelWeight(c, v);
        assert i == j;
    }
  }

  /**
   * Column-ordered enumeration: the (row, weight) pairs of column `c` among
   * rows `0` up to `upTo`, in ascending row order.
   */
  function ColumnEntries(m: Matrix, c: int, upTo: nat): seq<(nat, real)>
    requires Valid(m) && upTo <= m.rowCount
  {
    if upTo == 0 then []
    else
      var rest := ColumnEntries(m, c, upTo - 1);
      match FindPixel(m.rows[upTo - 1], c)
      case None => rest
      case Some(w) => rest + [(upTo - 1, w)]
  }

  /** Every pair of the column enumeration is a stored entry, and every stored entry of the column is enumerated. */
  lemma {:induction false} ColumnEntriesMembership(m: Matrix, c: nat, upTo: nat, r: nat, w: real)
    requires Valid(m) && upTo <= m.rowCount
    ensures (r, w) in ColumnEntries(m, c, upTo) <==> r < upTo && PixelWeight(c, w) in m.rows[r]
  {
    if upTo > 0 {
      ColumnEntriesMembership(m, c, upTo - 1, r, w);
      FindPixelExact(m.rows[upTo - 1], c, w);
    }
  }

  /** The column enumeration lists rows strictly ascending (so each row at most once) and below `upTo`. */
  lemma {:induction false} ColumnEntriesAscending(m: Matrix, c: int, upTo: nat)
    requires Valid(m) && upTo <= m.rowCount
    ensures forall i :: 0 <= i < |ColumnEntries(m, c, upTo)| ==> ColumnEntries(m, c, upTo)[i].0 < upTo
    ensures forall i, j :: 0 <= i < j < |ColumnEntries(m, c, upTo)| ==>
              ColumnEntries(m, c, upTo)[i].0 < ColumnEntries(m, c, upTo)[j].0
  {
    if upTo > 0 {
      ColumnEntriesAscending(m, c, upTo - 1);
    }
  }

  /** A column index outside the matrix has no entries. */
  lemma {:induction false} ColumnEntriesOutOfRange(m: Matrix, c: int, upTo: nat)
    requires Valid(m) && upTo <= m.rowCount
    requires c < 0 || c >= m.columnCount
    ensures ColumnEntries(m, c, upTo) == []
  {
    if upTo > 0 {
      ColumnEntriesOutOfRange(m, c, upTo - 1);
      var row := m.rows[upTo - 1];
      assert WithinColumns(row, m.columnCount);
    }
  }
}
