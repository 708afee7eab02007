# Wind shelter index: a Dafny model

This project models the computational core of `windshelter.py`. That code
computes a wind-shelter index over a digital elevation model (DEM). A square
window of side `2 * radius + 1` slides over the last band of the raster. Each
window is reduced to one number: the `prob` quantile of the shelter angles
`arctan((z - z_centre) / distance)`. Only cells inside a circular sector
around the centre take part, and cells equal to `nodata` or 0 are skipped.
The grid of window results is padded back to the band's shape with zeros.

The model has the following parts:

* `Wrappers`: `Option`, which stands for a possibly-NaN value, and the error
  cases of the core collected in `Result`.
* `Numerics`: `pi`, degree-to-radian conversion, the `% (2 * pi)` wrap, and a
  `Transcendentals` record that holds the functions numpy evaluates in
  floating point (`sqrt`, `arctan2`, arctan of a quotient). The record is a parameter of the model.
* `Grids`: the band as a flat row-major grid, small matrices, and
  flattening and reshaping.
* `Windows`: `sliding_window_view` as a strided view over the band's own
  storage, with the correspondence between view indices and band cells.
* `Sector`: `sector_mask` and `windshelter_prep`.
* `Stats`: `np.nanquantile` with numpy's default "linear" interpolation.
* `Reducer`: the per-window reducer `windshelter`.
* `Assembly`: `windshelter_window` up to the padded result grid. This part is
  imperative: a queue of results, a reshape, and a padding loop that writes
  an `array2`.

Behaviour of the code worth knowing:

* Despite its name, `windshelter_prep` passes `tolerance` to `sector_mask`
  as the stop angle (windshelter.py:72, docstring 35-36). With the
  `(180, 45)` that `windshelter_window` hard-codes (windshelter.py:89) the
  sector spans 225 degrees clockwise from 180 to 45 degrees
  (`Assembly.HardCodedSector`).
* Nothing checks the parameters up front:
  * A radius of 0 is accepted.
  * A band exactly `2 * radius` cells wide has no windows, so it gives an
    all-zero grid.
  * A band narrower than that fails only when the view is built.
  * An out-of-range `prob` fails only at the first window, so it does not
    fail at all when there are no windows.
* The centre of the sector mask is included exactly when the angle
  `arctan2(0, 0)` passes the angular test (`Sector.PrepCentre`). This
  matters: the reducer reads the centre elevation from the masked window
  (windshelter.py:78, 81), so when the mask leaves out the centre, the
  centre value is 0, then NaN, and every window is missing
  (`Reducer.CentreOutsideMask`). With `arctan2(0, 0) = 0`, as in numpy, the
  hard-coded `(180, 45)` sector does admit the centre
  (`Assembly.HardCodedSectorAdmitsCentre`). Only after reading it does the
  reducer clear the centre cell.
* Cells with elevation exactly 0 are skipped like `nodata` cells
  (windshelter.py:78-80). A window whose centre elevation is 0 has a missing
  value.

## Model

The per-line helpers carry no contract of their own and have no row. They
are the building blocks of the rows that state their behaviour:
* `Reducer.Masked` (windshelter.py:78), `Reducer.MarkMissing` (79-80),
  `Reducer.CentreValue` (81) and `Reducer.Angles` (83) for
  `Reducer.ShelterAngles`;
* `Sector.MaskCell` (48-60) for `Sector.SectorMask`;
* `Assembly.ShelterAt` and `Assembly.Shelters` for
  `Assembly.CollectShelters` and `Assembly.WindshelterWindow`.

| member | source | states |
|---|---|---|
| Numerics.WrapAngle | windshelter.py:52 | the wrapped angle lies in [0, 2 pi) and differs from the input by a whole number of turns |
| Windows.SlidingWindowView | windshelter.py:8-30 | the view exists exactly when the window dims are non-negative and no position count is negative (otherwise the negative-dimensions error). It shares the band's storage, counts `(extent - w) // step + 1` positions per axis, uses element strides `(cols*s0, s1, cols, 1)`, and every index of its shape addresses the storage |
| Windows.PositionsNonNegative | windshelter.py:27-30 | the position count along an axis is non-negative exactly when `extent - w >= -step` |
| Windows.WindowFits | windshelter.py:11-12 | position `i` is counted exactly when the window placed there lies wholly inside the band (`i*step + w <= extent`) |
| Windows.ElementCorrespondence | windshelter.py:21-30 | view element `[i][j][a][b]` sits at the storage offset of band cell `(i*s0 + a, j*s1 + b)`, which is inside the band |
| Windows.Window | windshelter.py:98 | the window read at a position is a `rows x cols` matrix |
| Windows.WindowCorrespondence | windshelter.py:21-30 | cell `[a][b]` of window `(i, j)` equals band cell `(i*s0 + a, j*s1 + b)` |
| Sector.SectorMask | windshelter.py:33-62 | the mask has the requested shape, and a cell is set exactly when it lies within the radius of the centre and its clockwise angle from the start angle is at most the span |
| Sector.SpanIsClockwiseArc | windshelter.py:43-45 | for start and stop in [0, 2 pi), the span after the wrap rule equals `(stop - start) mod 2 pi` and lies in [0, 2 pi) |
| Sector.WrapAroundSector | windshelter.py:41-58 | a sector from 350 to 20 degrees admits 355 and 5 degrees and rejects 180 degrees |
| Sector.FullCircleSector | windshelter.py:41-58 | a sector from 0 to 360 degrees admits every angle |
| Sector.WindshelterPrep | windshelter.py:65-74 | both grids are `(2r+1) x (2r+1)`. Each distance is the Euclidean distance to the centre cell times the cell size, and the mask is the sector mask of radius `r` at the centre with angles `(direction, tolerance)` |
| Sector.Distances | windshelter.py:66-69 | the distance grid is `(2r+1) x (2r+1)`, and each cell holds the Euclidean distance to the centre cell times the cell size |
| Sector.PrepCentre | windshelter.py:66-72 | the centre's distance is 0, and the centre is in the mask exactly when `arctan2(0, 0)` is admitted |
| Sector.DistScales | windshelter.py:69 | distances scale linearly with the cell size |
| Sector.DistPositiveOffCentre | windshelter.py:69 | for a positive cell size and a positive square root, every cell other than the centre has a positive distance |
| Sector.MaskWithinRadius | windshelter.py:55-60 | every masked cell lies within the radius of the centre |
| Stats.Sort | windshelter.py:84 | the values nanquantile orders are returned sorted and as a permutation of the input |
| Stats.Present | windshelter.py:84 | dropping the NaN cells leaves no more values than cells |
| Stats.PresentCounts | windshelter.py:84 | every value is kept exactly as many times as it occurs as a non-NaN cell, so repeated values keep their weight |
| Stats.PresentMembers | windshelter.py:84 | the kept values are exactly the non-NaN cells |
| Stats.NonePresent | windshelter.py:84 | when no value is kept, every cell is NaN |
| Stats.SortOfSorted | windshelter.py:84 | sorting values that are already ascending leaves them unchanged |
| Stats.Interpolate | windshelter.py:84 | linear interpolation at a rank lies between the two neighbouring order statistics |
| Stats.Quantile | windshelter.py:84 | the quantile of a sorted non-empty sequence lies between its first and last element |
| Stats.NanQuantile | windshelter.py:84 | an error exactly when `prob` is outside [0, 1]; otherwise missing exactly when every cell is NaN, and otherwise between the minimum and maximum of the present values |
| Stats.QuantileMonotone | windshelter.py:84 | the quantile does not decrease as `prob` increases |
| Stats.QuantileEnds | windshelter.py:84 | quantile 0 is the minimum and quantile 1 the maximum |
| Stats.NanQuantileMonotone | windshelter.py:84 | for the same data, a larger `prob` gives a result that is not smaller |
| Stats.MedianOfFour | windshelter.py:84 | the median of four ascending values is the mean of the two middle ones |
| Stats.LowerQuartileOfFour | windshelter.py:84 | the 0.25 quantile of four ascending values `a <= b <= c <= d` is `a + 0.75 * (b - a)`, which singles out the "linear" method among numpy's methods |
| Stats.MedianKeepsDuplicates | windshelter.py:84 | the median of `a, a, b` is `a`: a repeated value is counted twice |
| Stats.MedianExamples | windshelter.py:84 | the median of 1, 2, 3, 4 is 2.5 and the median of 1, 1, 5 is 1 |
| Stats.NanQuantileOfConstant | windshelter.py:84 | when every present value equals `c`, every valid quantile is `c` |
| Reducer.ShelterAngles | windshelter.py:78-83 | cell `(i, j)` has an angle exactly when it is not the centre, is in the mask, is neither `nodata` nor 0, and the centre value is present. The angle is `arctan((z - z_centre) / dist)` |
| Reducer.Windshelter | windshelter.py:77-85 | an error exactly when `prob` is outside [0, 1]. Otherwise missing exactly when the centre is unusable or no cell is retained, and otherwise between the smallest and largest shelter angle |
| Reducer.CentreOutsideMask | windshelter.py:78-84 | when the mask leaves out the centre cell and `prob` is valid, the shelter value is missing |
| Reducer.CentreOnlyWindow | windshelter.py:81-84 | with radius 0 the single cell is the cleared centre, so the value is missing |
| Reducer.WindshelterMonotone | windshelter.py:84 | for the same window, a larger `prob` gives a shelter value that is not smaller |
| Reducer.FlatTerrain | windshelter.py:78-84 | on level terrain with some usable cell, and with arctan of a level slope equal to 0, the shelter value is 0 |
| Grids.Reshape | windshelter.py:102-103 | reshaping a row-major sequence to `rows x cols` puts element `i*cols + j` at `[i][j]` |
| Grids.ReshapeFlatten | windshelter.py:102-103 | reshaping the row-major flattening of a matrix gives the matrix back |
| Assembly.HardCodedSector | windshelter.py:89 | the hard-coded `(180, 45)` sector spans 225 degrees |
| Assembly.HardCodedSectorAdmitsCentre | windshelter.py:89 | when `arctan2(0, 0)` is 0, the centre cell is in the mask `windshelter_prep` builds with the hard-coded `(180, 45)` sector |
| Assembly.BandView | windshelter.py:90 | the view of the band exists exactly when the radius is non-negative and the band is at least `2r` cells in each direction. It then has `rows - 2r` by `cols - 2r` positions of `(2r+1) x (2r+1)` windows |
| Assembly.Pad | windshelter.py:104 | the padded array is a new array, `2*width` larger in each dimension, and holds the fill value in the border and the data in the interior |
| Assembly.CollectShelters | windshelter.py:92-100 | the queue holds the reducer's values for all windows in row-major order. It fails with the out-of-range error exactly when there is at least one window and `prob` is outside [0, 1] |
| Assembly.WindshelterWindow | windshelter.py:88-104 | fails with no band, with a view that does not fit, or (when there is a window) with `prob` outside [0, 1]. Otherwise the grid is a new array with the band's shape, the border of width `radius` is 0, and interior cell `(r+i, r+j)` is the reducer's value for window `(i, j)` |

## Left out

- Raster output: updating the profile's dtype, writing `windshelter.tif` and printing its path (windshelter.py:107-113). These are file I/O.
- The final reshape to a one-band 3-D array (windshelter.py:105). It only adds a band axis of length 1.
- `run_windshelter.py`, the driver that reads the DEM and calls the core. It is raster I/O and is not part of this model.
- Floating point: the model computes in exact reals, with `pi` as the decimal literal of `np.pi`. Rounding, infinities and signed zeros are not modelled.
- The transcendental functions `sqrt`, `arctan2` and `arctan`: they are abstract parameters (`Numerics.Transcendentals`), so contracts about their values are conditional on the caller's assumptions.
- IEEE NaN is `None`. A NaN `nodata` value, which never compares equal, is not modelled: `nodata` is an ordinary real.
- Reducer.ShelterAngles: a zero cell size is not modelled as numpy computes it. There every distance is 0, so a cell at the centre's elevation gives 0/0 = NaN, which `nanquantile` drops. The model instead keeps that cell as `Some(math.slope(0.0, 0.0))`, and a cell at another elevation as `Some(math.slope(rise, 0.0))` where numpy gives plus or minus pi/2. So for a zero cell size, `Reducer.Windshelter`'s "missing exactly when" condition does not match numpy: numpy can also give NaN when every retained cell is level with the centre.
- Windows.SlidingWindowView: strides are counted in elements, not bytes, and only the two-dimensional case the core uses is modelled. It requires steps of at least 1, because the core passes `(1, 1)` and numpy's behaviour for zero or negative steps is outside the core.
- Windows.Window: the view is read-only and shares the band's storage (`buffer == arr.cells`). A window read from it is a value copy, so aliasing through writes is not modelled, since the core never writes through the view.
- Reducer.Windshelter: requires the window, distance grid and mask to be the same square shape. Broadcasting of mismatched shapes is not modelled because the core always passes matching shapes.
- Stats.NanQuantile: only a scalar probability and numpy's default "linear" method are modelled. numpy's two-branch interpolation formula is modelled as the single formula it equals in exact arithmetic.
- The queue in `windshelter_window` is a sequence that grows by appending. Its row-major order is stated by a loop invariant.
- Concurrency: none in the core.
