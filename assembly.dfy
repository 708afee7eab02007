/**
 * `windshelter_window` (the part before the raster is written): slide the
 * reducer over every window of the last band, queue the results in row-major
 * order, reshape them to the window grid and pad it with zeros.
 */
module Assembly {
  import opened Wrappers
  import opened Numerics
  import opened Grids
  import opened Windows
  import opened Sector
  import opened Reducer

  /** The sector start `windshelter_window` passes to `windshelter_prep`. */
  const DIRECTION: real := 180.0
  /** The "tolerance" it passes, which `sector_mask` reads as the stop angle. */
  const TOLERANCE: real := 45.0

  /**
   * Because the tolerance is taken as the stop angle, the hard-coded sector
   * is the 225 degrees clockwise from 180 to 45 degrees, not 45 degrees wide.
   */
  lemma HardCodedSector()
    ensures Span(DegToRad(DIRECTION), DegToRad(TOLERANCE)) == DegToRad(225.0)
  {
  }

  /**
   * When `arctan2(0, 0)` is 0, as it is in numpy, the hard-coded sector
   * admits the centre cell, so the centre elevation survives the masking.
   */
  lemma HardCodedSectorAdmitsCentre(radius: nat, cellSize: real, math: Transcendentals)
    requires math.arctan2(0.0, 0.0) == 0.0
    ensures WindshelterPrep(radius, DIRECTION, TOLERANCE, cellSize, math).1[radius][radius]
  {
    assert ((0.0 - DegToRad(DIRECTION)) / FULL_TURN).Floor == -1;
    assert AngleAdmitted(0.0, (DIRECTION, TOLERANCE));
    assert InCircle(0, 0, radius);
  }

  /** The window side `radius * 2 + 1`. */
  function WindowSide(radius: int): int
  {
    radius * 2 + 1
  }

  /** The view of line 90: all windows of side `2 * radius + 1`, step 1, over one band. */
  function BandView(band: Grid, radius: int): (r: Result<View>)
    ensures r.Ok? <==> radius >= 0 && band.rows >= 2 * radius && band.cols >= 2 * radius
    ensures r.Ok? ==> r.value.positions0 == band.rows - 2 * radius
    ensures r.Ok? ==> r.value.positions1 == band.cols - 2 * radius
    ensures r.Ok? ==> r.value.rows == Side(radius) && r.value.cols == Side(radius)
  {
    SlidingWindowView(band, (WindowSide(radius), WindowSide(radius)), (1, 1))
  }

  /** The reducer's result for the window at position (i, j) of the band. */
  function ShelterAt(band: Grid, nodata: real, radius: nat, prob: real, cellSize: real,
                     math: Transcendentals, i: int, j: int): Result<Option<real>>
    requires BandView(band, radius).Ok?
    requires 0 <= i < BandView(band, radius).value.positions0
    requires 0 <= j < BandView(band, radius).value.positions1
  {
    var kernel := WindshelterPrep(radius, DIRECTION, TOLERANCE, cellSize, math);
    var view := BandView(band, radius).value;
    Windshelter(Window(view, i, j), nodata, prob, kernel.0, kernel.1, radius, math)
  }

  /** The matrix of per-window shelter values (missing where the reducer fails). */
  function Shelters(band: Grid, nodata: real, radius: nat, prob: real, cellSize: real,
                    math: Transcendentals): (m: Matrix<Option<real>>)
    requires BandView(band, radius).Ok?
    ensures IsShape(m, band.rows - 2 * radius, band.cols - 2 * radius)
    ensures forall i, j :: 0 <= i < band.rows - 2 * radius && 0 <= j < band.cols - 2 * radius ==>
      m[i][j] == match ShelterAt(band, nodata, radius, prob, cellSize, math, i, j)
                 case Ok(v) => v
                 case Err(_) => None
  {
    var nc, nr := band.rows - 2 * radius, band.cols - 2 * radius;
    seq(nc, i requires 0 <= i < nc =>
      seq(nr, j requires 0 <= j < nr =>
        match ShelterAt(band, nodata, radius, prob, cellSize, math, i, j)
        case Ok(v) => v
        case Err(_) => None))
  }

  /**
   * `np.pad(data, pad_width=width, mode='constant', constant_values=fill)`:
   * a `rows + 2 width` by `cols + 2 width` array whose border of `width`
   * cells holds `fill` and whose interior holds `data`.
   */
  method Pad<T>(data: Matrix<T>, rows: nat, cols: nat, width: nat, fill: T) returns (out: array2<T>)
    requires IsShape(data, rows, cols)
    ensures fresh(out)
    ensures out.Length0 == rows + 2 * width && out.Length1 == cols + 2 * width
    ensures forall x, y :: 0 <= x < out.Length0 && 0 <= y < out.Length1 ==>
      out[x, y] == if width <= x < width + rows && width <= y < width + cols
                   then data[x - width][y - width] else fill
  {
    out := new T[rows + 2 * width, cols + 2 * width]((x, y) => fill);
    for i := 0 to rows
      invariant forall x, y :: 0 <= x < out.Length0 && 0 <= y < out.Length1 ==>
        out[x, y] == if width <= x < width + i && width <= y < width + cols
                     then data[x - width][y - width] else fill
    {
      for j := 0 to cols
        invariant forall x, y :: 0 <= x < out.Length0 && 0 <= y < out.Length1 ==>
          out[x, y] == if (width <= x < width + i && width <= y < width + cols)
                          || (x == width + i && width <= y < width + j)
                       then data[x - width][y - width] else fill
      {
        out[width + i, width + j] := data[i][j];
      }
    }
  }

  /**
   * `windshelter_window(array, profile, radius, prob, cell_size)` up to the
   * padded result grid. It fails when the raster has no band, when the
   * window does not fit (negative radius, or the last band narrower than
   * `2 * radius` in either direction), and when there is at least one window
   * and `prob` is outside [0, 1]. Otherwise the grid has the band's shape,
   * every cell within `radius` of the edge is 0, and cell
   * (radius + i, radius + j) holds the reducer's value for window (i, j).
   */
  method WindshelterWindow(bands: seq<Grid>, nodata: real, radius: int, prob: real, cellSize: real,
                           math: Transcendentals) returns (res: Result<array2<Option<real>>>)
    ensures res.Ok? ==> fresh(res.value)
    ensures bands == [] ==> res == Err(NoBands)
    ensures bands != [] ==>
      var band := bands[|bands| - 1];
      && (BandView(band, radius).Err? ==> res == Err(NegativeDimensions))
      && (BandView(band, radius).Ok? ==>
            && (res.Err? <==>
                  band.rows > 2 * radius && band.cols > 2 * radius && !(0.0 <= prob <= 1.0))
            && (res.Err? ==> res.error == QuantileOutOfRange))
    ensures res.Ok? ==>
      && bands != []
      && var band := bands[|bands| - 1];
      && radius >= 0
      && BandView(band, radius).Ok?
      && res.value.Length0 == band.rows && res.value.Length1 == band.cols
      && forall x, y :: 0 <= x < band.rows && 0 <= y < band.cols ==>
           res.value[x, y] ==
             if radius <= x < band.rows - radius && radius <= y < band.cols - radius
             then ShelterAt(band, nodata, radius, prob, cellSize, math, x - radius, y - radius).value
             else Some(0.0)
  {
    var kernel := WindshelterPrep(radius, DIRECTION, TOLERANCE, cellSize, math);
    if |bands| == 0 {
      return Err(NoBands);
    }
    var band := bands[|bands| - 1];
    var view := SlidingWindowView(band, (WindowSide(radius), WindowSide(radius)), (1, 1));
    if view.Err? {
      return Err(view.error);
    }
    var r: nat := radius;
    var nc, nr := view.value.positions0, view.value.positions1;
    var ws := CollectShelters(band, nodata, r, prob, cellSize, math, view.value, kernel);
    if ws.Err? {
      return Err(ws.error);
    }
    ghost var expected := Shelters(band, nodata, r, prob, cellSize, math);
    ReshapeFlatten(expected, nc, nr);
    var grid := Reshape(ws.value, nc, nr);
    var out := Pad(grid, nc, nr, r, Some(0.0));
    return Ok(out);
  }

  /**
   * The loops of `windshelter_window`: apply the reducer to every window in
   * row-major order, appending each value to the queue. The first reducer
   * error (an out-of-range `prob`) is returned at once; otherwise the queue
   * holds the shelter matrix read row by row.
   */
  method CollectShelters(band: Grid, nodata: real, radius: nat, prob: real, cellSize: real,
                         math: Transcendentals, view: View, kernel: (Matrix<real>, Matrix<bool>))
    returns (res: Result<seq<Option<real>>>)
    requires BandView(band, radius) == Ok(view)
    requires kernel == WindshelterPrep(radius, DIRECTION, TOLERANCE, cellSize, math)
    ensures res.Err? <==> view.positions0 > 0 && view.positions1 > 0 && !(0.0 <= prob <= 1.0)
    ensures res.Err? ==> res.error == QuantileOutOfRange
    ensures res.Ok? ==> res.value == Flatten(Shelters(band, nodata, radius, prob, cellSize, math))
  {
    var nc, nr := view.positions0, view.positions1;
    ghost var expected := Shelters(band, nodata, radius, prob, cellSize, math);
    var ws: seq<Option<real>> := [];
    for i := 0 to nc
      invariant ws == Flatten(expected[..i])
      invariant i > 0 && nr > 0 ==> 0.0 <= prob <= 1.0
    {
      for j := 0 to nr
        invariant ws == Flatten(expected[..i]) + expected[i][..j]
        invariant (i > 0 || j > 0) && nr > 0 ==> 0.0 <= prob <= 1.0
      {
        ShelterStep(band, nodata, radius, prob, cellSize, math, i, j);
        var data := Windshelter(Window(view, i, j), nodata, prob, kernel.0, kernel.1, radius, math);
        if data.Err? {
          return Err(data.error);
        }
        TakeOneMore(expected[i], j);
        ws := ws + [data.value];
      }
      assert expected[i][..nr] == expected[i];
      TakeOneMore(expected, i);
      FlattenAppendRow(expected[..i], expected[i]);
    }
    assert expected[..nc] == expected;
    return Ok(ws);
  }

  /** One step of the loops: the reducer's value for window (i, j) and its place in the shelter matrix. */
  lemma ShelterStep(band: Grid, nodata: real, radius: nat, prob: real, cellSize: real,
                    math: Transcendentals, i: int, j: int)
    requires BandView(band, radius).Ok?
    requires 0 <= i < BandView(band, radius).value.positions0
    requires 0 <= j < BandView(band, radius).value.positions1
    ensures
      var kernel := WindshelterPrep(radius, DIRECTION, TOLERANCE, cellSize, math);
      var v := Windshelter(Window(BandView(band, radius).value, i, j), nodata, prob,
                           kernel.0, kernel.1, radius, math);
      && v == ShelterAt(band, nodata, radius, prob, cellSize, math, i, j)
      && (v.Err? <==> !(0.0 <= prob <= 1.0))
      && (v.Err? ==> v.error == QuantileOutOfRange)
      && (v.Ok? ==> Shelters(band, nodata, radius, prob, cellSize, math)[i][j] == v.value)
  {
  }
}
