/** Grids: the flat row-major elevation band, and small 2-D arrays as rows. */
module Grids {

  datatype RawGrid = RawGrid(rows: nat, cols: nat, cells: seq<real>)

  /** A contiguous, row-major band of elevations (`array[-1]` cast to float). */
  type Grid = g: RawGrid | |g.cells| == g.rows * g.cols witness RawGrid(0, 0, [])

  /** Row-major offset of cell (i, j) in a grid with `cols` columns. */
  function FlatIndex(i: int, j: int, cols: int): int
  {
    i * cols + j
  }

  /** Every index inside a rows x cols grid addresses its flat storage. */
  lemma FlatIndexInRange(i: int, j: int, rows: int, cols: int)
    requires 0 <= i < rows && 0 <= j < cols
    ensures 0 <= FlatIndex(i, j, cols) < rows * cols
  {
    var spare := rows - 1 - i;
    assert spare >= 0;
    assert spare * cols >= 0;
    assert rows * cols == i * cols + spare * cols + cols;
  }

  /** `arr[i][j]` of a grid. */
  function At(g: Grid, i: int, j: int): real
    requires 0 <= i < g.rows && 0 <= j < g.cols
  {
    var k := FlatIndex(i, j, g.cols);
    FlatIndexInRange(i, j, g.rows, g.cols);
    assert k < |g.cells|;
    g.cells[k]
  }

  /** A small 2-D array (a window, the mask, the distance grid) as a sequence of rows. */
  type Matrix<T> = seq<seq<T>>

  /** `m` has `rows` rows of `cols` entries each. */
  predicate IsShape<T>(m: Matrix<T>, rows: nat, cols: nat)
  {
    |m| == rows && forall i :: 0 <= i < rows ==> |m[i]| == cols
  }

  /** The row-major sequence of all entries of `m` (`ndarray.ravel`). */
  function Flatten<T>(m: Matrix<T>): seq<T>
  {
    if m == [] then [] else m[0] + Flatten(m[1..])
  }

  /** Every entry of the matrix occurs in its flattening. */
  lemma {:induction false} FlattenContains<T>(m: Matrix<T>, i: int, j: int)
    requires 0 <= i < |m| && 0 <= j < |m[i]|
    ensures m[i][j] in Flatten(m)
  {
    assert Flatten(m) == m[0] + Flatten(m[1..]);
    if i == 0 {
      assert Flatten(m)[j] == m[0][j];
    } else {
      FlattenContains(m[1..], i - 1, j);
      assert m[1..][i - 1][j] == m[i][j];
    }
  }

  /** Every element of the flattening is an entry (i, j) of the matrix. */
  lemma {:induction false} FlattenSource<T>(m: Matrix<T>, k: int) returns (i: int, j: int)
    requires 0 <= k < |Flatten(m)|
    ensures 0 <= i < |m| && 0 <= j < |m[i]| && m[i][j] == Flatten(m)[k]
  {
    assert m != [];
    assert Flatten(m) == m[0] + Flatten(m[1..]);
    if k < |m[0]| {
      i, j := 0, k;
    } else {
      var i1, j1 := FlattenSource(m[1..], k - |m[0]|);
      i, j := i1 + 1, j1;
      assert m[1..][i1] == m[i];
    }
  }

  /** A rows x cols matrix flattens to rows * cols entries. */
  lemma {:induction false} FlattenLength<T>(m: Matrix<T>, rows: nat, cols: nat)
    requires IsShape(m, rows, cols)
    ensures |Flatten(m)| == rows * cols
  {
    if m != [] {
      FlattenLength(m[1..], rows - 1, cols);
      assert rows * cols == cols + (rows - 1) * cols;
    }
  }

  /** Flattening after appending a row appends that row to the flattening. */
  lemma {:induction false} FlattenAppendRow<T>(m: Matrix<T>, row: seq<T>)
    ensures Flatten(m + [row]) == Flatten(m) + row
  {
    if m == [] {
      assert [] + [row] == [row];
      assert Flatten([row]) == row + Flatten([]);
    } else {
      assert (m + [row])[1..] == m[1..] + [row];
      FlattenAppendRow(m[1..], row);
      assert Flatten(m + [row]) == m[0] + Flatten(m[1..] + [row]);
    }
  }

  /** Rows of `cols` entries each: row i occupies [i * cols, i * cols + cols). */
  lemma RowInRange(i: int, rows: int, cols: int)
    requires 0 <= i < rows && cols >= 0
    ensures 0 <= i * cols && i * cols + cols <= rows * cols
  {
    var spare := rows - 1 - i;
    assert spare * cols >= 0;
    assert rows * cols == i * cols + spare * cols + cols;
  }

  /** `np.array(ws).reshape(rows, cols)`: cut a flat sequence into rows of `cols` entries. */
  function Reshape<T>(s: seq<T>, rows: nat, cols: nat): (m: Matrix<T>)
    requires |s| == rows * cols
    ensures IsShape(m, rows, cols)
    ensures forall i, j :: 0 <= i < rows && 0 <= j < cols ==>
      0 <= FlatIndex(i, j, cols) < |s| && m[i][j] == s[FlatIndex(i, j, cols)]
  {
    var m := seq(rows, i requires 0 <= i < rows => Row(s, rows, cols, i));
    assert forall i, j :: 0 <= i < rows && 0 <= j < cols ==>
      0 <= FlatIndex(i, j, cols) < |s| && m[i][j] == s[FlatIndex(i, j, cols)] by {
      forall i, j | 0 <= i < rows && 0 <= j < cols
        ensures 0 <= FlatIndex(i, j, cols) < |s| && m[i][j] == s[FlatIndex(i, j, cols)]
      {
        assert m[i] == Row(s, rows, cols, i);
        RowAt(s, rows, cols, i, j);
      }
    }
    m
  }

  /** Row i of the reshaped sequence. */
  function Row<T>(s: seq<T>, rows: nat, cols: nat, i: int): (row: seq<T>)
    requires |s| == rows * cols && 0 <= i < rows
    ensures |row| == cols
  {
    RowInRange(i, rows, cols);
    s[i * cols .. i * cols + cols]
  }

  lemma RowAt<T>(s: seq<T>, rows: nat, cols: nat, i: int, j: int)
    requires |s| == rows * cols && 0 <= i < rows && 0 <= j < cols
    ensures 0 <= FlatIndex(i, j, cols) < |s| && Row(s, rows, cols, i)[j] == s[FlatIndex(i, j, cols)]
  {
    RowInRange(i, rows, cols);
  }

  /** Reshaping the flattening of a rows x cols matrix gives the matrix back. */
  lemma {:induction false} ReshapeFlatten<T>(m: Matrix<T>, rows: nat, cols: nat)
    requires IsShape(m, rows, cols)
    ensures |Flatten(m)| == rows * cols
    ensures Reshape(Flatten(m), rows, cols) == m
  {
    FlattenLength(m, rows, cols);
    var f := Flatten(m);
    var r := Reshape(f, rows, cols);
    forall i | 0 <= i < rows ensures r[i] == m[i] {
      forall j | 0 <= j < cols ensures r[i][j] == m[i][j] {
        FlattenAt(m, rows, cols, i, j);
      }
    }
  }

  /** Entry (i, j) of a rows x cols matrix sits at offset i * cols + j of its flattening. */
  lemma {:induction false} FlattenAt<T>(m: Matrix<T>, rows: nat, cols: nat, i: int, j: int)
    requires IsShape(m, rows, cols) && 0 <= i < rows && 0 <= j < cols
    ensures 0 <= FlatIndex(i, j, cols) < |Flatten(m)| && Flatten(m)[FlatIndex(i, j, cols)] == m[i][j]
  {
    var rest := Flatten(m[1..]);
    assert Flatten(m) == m[0] + rest;
    assert |m[0]| == cols;
    if i == 0 {
      assert FlatIndex(0, j, cols) == j;
    } else {
      assert IsShape(m[1..], rows - 1, cols);
      FlattenAt(m[1..], rows - 1, cols, i - 1, j);
      assert m[1..][i - 1] == m[i];
      NextRow(i, j, cols);
    }
  }

  /** One row further on is `cols` cells further on in the storage. */
  lemma NextRow(i: int, j: int, cols: int)
    ensures FlatIndex(i, j, cols) == cols + FlatIndex(i - 1, j, cols)
  {
    assert i * cols == (i - 1) * cols + cols;
  }

  /** Taking one more element of a sequence appends that element. */
  lemma TakeOneMore<T>(s: seq<T>, k: int)
    requires 0 <= k < |s|
    ensures s[..k + 1] == s[..k] + [s[k]]
  {
  }
}
