/**
 * `sliding_window_view`: every fully-inside window over a contiguous
 * row-major band, as a read-only strided view that shares the band's storage.
 * Offsets and strides are counted in elements, not bytes.
 */
module Windows {
  import opened Wrappers
  import opened Grids

  /** Steps through the storage per unit of each of the four view axes. */
  datatype Strides = Strides(position0: int, position1: int, row: int, col: int)

  /**
   * The array `as_strided(arr, outshape, strides, writeable=False)` returns:
   * `positions0 x positions1` window positions, each `rows x cols`, read
   * from `buffer`, which is the source band's own storage.
   */
  datatype View = View(
    buffer: seq<real>,
    positions0: nat, positions1: nat, rows: nat, cols: nat,
    strides: Strides)

  /** Storage offset of `view[i][j][a][b]`. */
  function Offset(st: Strides, i: int, j: int, a: int, b: int): int
  {
    i * st.position0 + j * st.position1 + a * st.row + b * st.col
  }

  predicate InShape(v: View, i: int, j: int, a: int, b: int)
  {
    0 <= i < v.positions0 && 0 <= j < v.positions1 && 0 <= a < v.rows && 0 <= b < v.cols
  }

  /** Every index of the view's shape lands inside its storage. */
  ghost predicate Addressable(v: View)
  {
    forall i, j, a, b :: InShape(v, i, j, a, b) ==> 0 <= Offset(v.strides, i, j, a, b) < |v.buffer|
  }

  /** Number of window positions along one axis: `(extent - w) // step + 1`. */
  function Positions(extent: int, w: int, step: int): int
    requires step >= 1
  {
    // Dafny's `/` with a positive divisor rounds down, like Python's `//`.
    (extent - w) / step + 1
  }

  function SlidingWindowView(arr: Grid, windowShape: (int, int), steps: (int, int)): (r: Result<View>)
    requires steps.0 >= 1 && steps.1 >= 1
    ensures r.Ok? <==>
      && windowShape.0 >= 0 && windowShape.1 >= 0
      && arr.rows - windowShape.0 >= -steps.0 && arr.cols - windowShape.1 >= -steps.1
    ensures r.Err? ==> r.error == NegativeDimensions
    ensures r.Ok? ==> r.value.buffer == arr.cells
    ensures r.Ok? ==> r.value.rows == windowShape.0 && r.value.cols == windowShape.1
    ensures r.Ok? ==> r.value.positions0 == Positions(arr.rows, windowShape.0, steps.0)
    ensures r.Ok? ==> r.value.positions1 == Positions(arr.cols, windowShape.1, steps.1)
    ensures r.Ok? ==> r.value.strides == Strides(arr.cols * steps.0, steps.1, arr.cols, 1)
    ensures r.Ok? ==> Addressable(r.value)
  {
    // window_strides for a 2-D band: (cols, 1)
    var windowStrides := (arr.cols, 1);
    // step_strides: window_strides scaled by the steps
    var stepStrides := (windowStrides.0 * steps.0, windowStrides.1 * steps.1);
    var n0 := Positions(arr.rows, windowShape.0, steps.0);
    var n1 := Positions(arr.cols, windowShape.1, steps.1);
    PositionsNonNegative(arr.rows, windowShape.0, steps.0);
    PositionsNonNegative(arr.cols, windowShape.1, steps.1);
    if n0 < 0 || n1 < 0 || windowShape.0 < 0 || windowShape.1 < 0 then
      Err(NegativeDimensions)
    else
      var v := View(arr.cells, n0, n1, windowShape.0, windowShape.1,
                    Strides(stepStrides.0, stepStrides.1, windowStrides.0, windowStrides.1));
      assert Addressable(v) by {
        forall i, j, a, b | InShape(v, i, j, a, b)
          ensures 0 <= Offset(v.strides, i, j, a, b) < |v.buffer|
        {
          ElementCorrespondence(arr, windowShape, steps, i, j, a, b);
        }
      }
      Ok(v)
  }

  lemma PositionsNonNegative(extent: int, w: int, step: int)
    requires step >= 1
    ensures Positions(extent, w, step) >= 0 <==> extent - w >= -step
  {
    var d := extent - w;
    var q := d / step;
    assert d == q * step + d % step;
    assert 0 <= d % step < step;
    if q >= -1 {
      assert (q + 1) * step >= 0;
      assert q * step >= -step;
    } else {
      assert (-2 - q) * step >= 0;
      assert q * step <= -2 * step;
    }
  }

  /**
   * A window position `i` is produced exactly when the window placed there
   * lies inside the band: `i * step + w <= extent`.
   */
  lemma WindowFits(extent: int, w: int, step: int, i: int)
    requires step >= 1 && i >= 0 && extent - w >= -step
    ensures i < Positions(extent, w, step) <==> i * step + w <= extent
  {
    var d := extent - w;
    var q, rem := d / step, d % step;
    assert Positions(extent, w, step) == q + 1;
    assert d == q * step + rem && 0 <= rem < step;
    if i <= q {
      ScaleMonotone(i, q, step);
    } else {
      ScaleMonotone(q + 1, i, step);
      assert (q + 1) * step == q * step + step;
    }
  }

  /** Scaling by a non-negative factor keeps order. */
  lemma ScaleMonotone(lo: int, hi: int, k: int)
    requires lo <= hi && k >= 0
    ensures lo * k <= hi * k
  {
    assert hi * k - lo * k == (hi - lo) * k;
  }

  /**
   * For a contiguous row-major band, `view[i][j][a][b]` is the element of row
   * `i * steps.0 + a` and column `j * steps.1 + b`, and that cell is inside
   * the band.
   */
  lemma ElementCorrespondence(arr: Grid, windowShape: (int, int), steps: (int, int),
                              i: int, j: int, a: int, b: int)
    requires steps.0 >= 1 && steps.1 >= 1
    requires windowShape.0 >= 0 && windowShape.1 >= 0
    requires 0 <= i < Positions(arr.rows, windowShape.0, steps.0)
    requires 0 <= j < Positions(arr.cols, windowShape.1, steps.1)
    requires 0 <= a < windowShape.0 && 0 <= b < windowShape.1
    ensures 0 <= i * steps.0 + a < arr.rows && 0 <= j * steps.1 + b < arr.cols
    ensures Offset(Strides(arr.cols * steps.0, steps.1, arr.cols, 1), i, j, a, b)
         == FlatIndex(i * steps.0 + a, j * steps.1 + b, arr.cols)
    ensures 0 <= Offset(Strides(arr.cols * steps.0, steps.1, arr.cols, 1), i, j, a, b) < |arr.cells|
  {
    WindowFits(arr.rows, windowShape.0, steps.0, i);
    WindowFits(arr.cols, windowShape.1, steps.1, j);
    assert i * steps.0 >= 0 && j * steps.1 >= 0;
    var row, col := i * steps.0 + a, j * steps.1 + b;
    assert i * (arr.cols * steps.0) + a * arr.cols == row * arr.cols by {
      assert i * (arr.cols * steps.0) == (i * steps.0) * arr.cols;
      assert (i * steps.0 + a) * arr.cols == (i * steps.0) * arr.cols + a * arr.cols;
    }
    FlatIndexInRange(row, col, arr.rows, arr.cols);
  }

  /** `view[i][j][a][b]`. */
  function Get(v: View, i: int, j: int, a: int, b: int): real
    requires Addressable(v) && InShape(v, i, j, a, b)
  {
    v.buffer[Offset(v.strides, i, j, a, b)]
  }

  /** `view[i, j]`: the window at position (i, j), as a fresh `rows x cols` matrix. */
  function Window(v: View, i: int, j: int): (w: Matrix<real>)
    requires Addressable(v) && 0 <= i < v.positions0 && 0 <= j < v.positions1
    ensures IsShape(w, v.rows, v.cols)
  {
    seq(v.rows, a requires 0 <= a < v.rows =>
      seq(v.cols, b requires 0 <= b < v.cols => Get(v, i, j, a, b)))
  }

  /**
   * The window at (i, j) of the sliding view of `arr` holds, at (a, b), the
   * band's cell (i * steps.0 + a, j * steps.1 + b).
   */
  lemma WindowCorrespondence(arr: Grid, windowShape: (int, int), steps: (int, int),
                             i: int, j: int, a: int, b: int)
    requires steps.0 >= 1 && steps.1 >= 1
    requires SlidingWindowView(arr, windowShape, steps).Ok?
    requires var v := SlidingWindowView(arr, windowShape, steps).value;
      0 <= i < v.positions0 && 0 <= j < v.positions1 && 0 <= a < v.rows && 0 <= b < v.cols
    ensures 0 <= i * steps.0 + a < arr.rows && 0 <= j * steps.1 + b < arr.cols
    ensures var v := SlidingWindowView(arr, windowShape, steps).value;
      Window(v, i, j)[a][b] == At(arr, i * steps.0 + a, j * steps.1 + b)
  {
    ElementCorrespondence(arr, windowShape, steps, i, j, a, b);
  }
}
