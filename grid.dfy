/** The NumPy array operations the time grids are built from, on
    two-dimensional arrays held as sequences of rows: `np.arange` on integer
    instants, `reshape(-1, cols)`, `.T`, `np.flipud` (`np.flip(axis=0)`) and an
    elementwise map (what `np.vectorize` does to a grid). */
module Grid {
  import opened PySemantics
  import Arith

  /** g has the given shape. */
  predicate IsMatrix<T>(g: seq<seq<T>>, rows: nat, cols: nat) {
    |g| == rows && forall i :: 0 <= i < rows ==> |g[i]| == cols
  }

  /** `np.arange(start, end)`: the instants start, start + 1, ... below end. */
  function Arange(start: int, end: int): (s: seq<int>)
    ensures |s| == if end <= start then 0 else end - start
    ensures forall k :: 0 <= k < |s| ==> s[k] == start + k
  {
    if end <= start then [] else seq(end - start, k => start + k)
  }

  const ReshapeMessage := "cannot reshape array into shape (-1, cols)"

  /** Row i of flat cut into rows of cols elements. */
  function RowOf<T>(flat: seq<T>, cols: nat, i: nat): (row: seq<T>)
    requires i * cols + cols <= |flat|
    ensures |row| == cols
  {
    flat[i * cols .. i * cols + cols]
  }

  /** flat cut into rows of cols consecutive elements. */
  function SplitRows<T>(flat: seq<T>, rows: nat, cols: nat): (g: seq<seq<T>>)
    requires |flat| == rows * cols
    ensures IsMatrix(g, rows, cols)
  {
    var g := seq(rows, i requires 0 <= i < rows =>
      Arith.RowFits(i, rows, cols);
      RowOf(flat, cols, i));
    assert forall i :: 0 <= i < rows ==> |g[i]| == cols by {
      forall i | 0 <= i < rows
        ensures |g[i]| == cols
      {
        Arith.RowFits(i, rows, cols);
        assert g[i] == RowOf(flat, cols, i);
      }
    }
    g
  }

  /** `flat.reshape(-1, cols)`: rows of cols consecutive elements; raises
      ValueError when the length is not a multiple of cols. */
  function Reshape<T>(flat: seq<T>, cols: nat): (r: Result<seq<seq<T>>>)
    requires cols > 0
    ensures r.Success? <==> |flat| % cols == 0
    ensures r.Success? ==> IsMatrix(r.value, |flat| / cols, cols)
  {
    if |flat| % cols != 0 then Failure(ValueError(ReshapeMessage))
    else
      Arith.DivExact(|flat|, cols);
      Success(SplitRows(flat, |flat| / cols, cols))
  }

  /** Cell (i, j) of the reshaped array is element i * cols + j of the input. */
  lemma {:induction false} ReshapeCell<T>(flat: seq<T>, cols: nat, i: int, j: int)
    requires cols > 0 && |flat| % cols == 0
    requires 0 <= i < |flat| / cols && 0 <= j < cols
    ensures 0 <= i * cols + j < |flat|
    ensures Reshape(flat, cols).value[i][j] == flat[i * cols + j]
  {
    var rows := |flat| / cols;
    Arith.DivExact(|flat|, cols);
    Arith.CellIndex(i, j, rows, cols);
    Arith.RowFits(i, rows, cols);
    var row := RowOf(flat, cols, i);
    assert SplitRows(flat, rows, cols)[i] == row;
    assert row[j] == flat[i * cols + j];
  }

  /** `g.T`. The shape is passed in because NumPy keeps it for empty arrays. */
  function Transpose<T>(g: seq<seq<T>>, rows: nat, cols: nat): (t: seq<seq<T>>)
    requires IsMatrix(g, rows, cols)
    ensures IsMatrix(t, cols, rows)
    ensures forall i, j :: 0 <= i < cols && 0 <= j < rows ==> t[i][j] == g[j][i]
  {
    seq(cols, j requires 0 <= j < cols => seq(rows, i requires 0 <= i < rows => g[i][j]))
  }

  /** Transposing twice gives back the array. */
  lemma {:induction false} TransposeInvolution<T>(g: seq<seq<T>>, rows: nat, cols: nat)
    requires IsMatrix(g, rows, cols)
    ensures Transpose(Transpose(g, rows, cols), cols, rows) == g
  {
    var t := Transpose(Transpose(g, rows, cols), cols, rows);
    forall i | 0 <= i < rows
      ensures t[i] == g[i]
    {
      assert |t[i]| == |g[i]|;
      forall j | 0 <= j < cols
        ensures t[i][j] == g[i][j]
      {
      }
    }
  }

  /** `np.flipud(g)`: the rows in reverse order. */
  function FlipRows<T>(g: seq<seq<T>>): (f: seq<seq<T>>)
    ensures |f| == |g|
  {
    seq(|g|, i requires 0 <= i < |g| => g[|g| - 1 - i])
  }

  /** Flipping keeps the shape and each row intact: only the row order
      changes, so the order of the columns is untouched. */
  lemma FlipRowsCell<T>(g: seq<seq<T>>, rows: nat, cols: nat)
    requires IsMatrix(g, rows, cols)
    ensures IsMatrix(FlipRows(g), rows, cols)
    ensures forall i, j :: 0 <= i < rows && 0 <= j < cols ==>
      FlipRows(g)[i][j] == g[rows - 1 - i][j]
  {
  }

  /** Flipping twice gives back the array. */
  lemma FlipRowsInvolution<T>(g: seq<seq<T>>)
    ensures FlipRows(FlipRows(g)) == g
  {
  }

  /** An elementwise map over a grid. */
  function MapGrid<A, B>(g: seq<seq<A>>, f: A -> B): (m: seq<seq<B>>)
    ensures |m| == |g| && forall i :: 0 <= i < |g| ==> |m[i]| == |g[i]|
  {
    seq(|g|, i requires 0 <= i < |g| => seq(|g[i]|, j requires 0 <= j < |g[i]| => f(g[i][j])))
  }

  /** An elementwise map keeps the shape and applies f at every position. */
  lemma MapGridCell<A, B>(g: seq<seq<A>>, f: A -> B, rows: nat, cols: nat)
    requires IsMatrix(g, rows, cols)
    ensures IsMatrix(MapGrid(g, f), rows, cols)
    ensures forall i, j :: 0 <= i < rows && 0 <= j < cols ==> MapGrid(g, f)[i][j] == f(g[i][j])
  {
  }

  /** Reading a grid column after column, top to bottom: what `.T` followed
      by a row-major flatten gives. */
  function ColumnMajor<T>(g: seq<seq<T>>, rows: nat, cols: nat): (s: seq<T>)
    requires rows > 0 && IsMatrix(g, rows, cols)
    ensures |s| == rows * cols
  {
    seq(rows * cols, k requires 0 <= k < rows * cols =>
      Arith.FlatIndex(k, cols, rows);
      g[k % rows][k / rows])
  }

  /** `flat.reshape(-1, cols).T`, read back column after column, is flat:
      the transpose of a reshape loses and reorders nothing. */
  lemma {:induction false} ColumnMajorOfTransposedReshape<T>(flat: seq<T>, cols: nat)
    requires cols > 0 && |flat| % cols == 0
    ensures var n := |flat| / cols;
      ColumnMajor(Transpose(Reshape(flat, cols).value, n, cols), cols, n) == flat
  {
    var n := |flat| / cols;
    var g := Reshape(flat, cols).value;
    var c := ColumnMajor(Transpose(g, n, cols), cols, n);
    assert |flat| == n * cols;
    forall k | 0 <= k < |flat|
      ensures c[k] == flat[k]
    {
      Arith.FlatIndex(k, n, cols);
      ReshapeCell(flat, cols, k / cols, k % cols);
    }
  }
}
