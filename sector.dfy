/**
 * `sector_mask` and `windshelter_prep`: the circular-sector mask and the
 * distance grid, built once per (radius, direction, tolerance, cell size).
 */
module Sector {
  import opened Numerics
  import opened Grids

  /** The stop angle once it is made to follow the start: a full turn is added when stop < start. */
  function StopAngle(tmin: real, tmax: real): real
  {
    if tmax < tmin then tmax + FULL_TURN else tmax
  }

  /** `tmax - tmin` after the wrap rule: the angular width the mask admits. */
  function Span(tmin: real, tmax: real): real
  {
    StopAngle(tmin, tmax) - tmin
  }

  /** Squared offset within `radius * radius`: the circular part of the mask. */
  predicate InCircle(dr: int, dc: int, radius: int)
  {
    dr * dr + dc * dc <= radius * radius
  }

  /**
   * `theta`: the polar angle `arctan2(row offset, column offset)` of an
   * offset, measured from the start angle and wrapped into [0, 2 pi).
   */
  function RelativeAngle(math: Transcendentals, dr: int, dc: int, tmin: real): real
  {
    WrapAngle(math.arctan2(dr as real, dc as real) - tmin)
  }

  /** The angular part of the mask for a polar angle `phi` and start/stop angles in degrees. */
  predicate AngleAdmitted(phi: real, angleRange: (real, real))
  {
    var tmin := DegToRad(angleRange.0);
    WrapAngle(phi - tmin) <= Span(tmin, DegToRad(angleRange.1))
  }

  /**
   * `sector_mask(shape, centre, radius, angle_range)`: which cells of a
   * `rows x cols` array lie within `radius` of `centre` and inside the sector
   * running clockwise from the start angle to the stop angle.
   */
  function SectorMask(rows: nat, cols: nat, centre: (int, int), radius: int,
                      angleRange: (real, real), math: Transcendentals): (m: Matrix<bool>)
    ensures IsShape(m, rows, cols)
    ensures forall x, y :: 0 <= x < rows && 0 <= y < cols ==>
      (m[x][y] <==>
         && InCircle(x - centre.0, y - centre.1, radius)
         && AngleAdmitted(math.arctan2((x - centre.0) as real, (y - centre.1) as real), angleRange))
  {
    var tmin := DegToRad(angleRange.0);
    var tmax := StopAngle(tmin, DegToRad(angleRange.1));
    var m := seq(rows, x => seq(cols, y => MaskCell(math, x - centre.0, y - centre.1, radius, tmin, tmax)));
    assert forall x, y :: 0 <= x < rows && 0 <= y < cols ==>
      m[x][y] == MaskCell(math, x - centre.0, y - centre.1, radius, tmin, tmax);
    m
  }

  /** One cell of the mask, computed as `circmask * anglemask` with `r2` and `theta`. */
  function MaskCell(math: Transcendentals, dr: int, dc: int, radius: int, tmin: real, tmax: real): bool
  {
    var r2 := dr * dr + dc * dc;
    var theta := RelativeAngle(math, dr, dc, tmin);
    var circmask := r2 <= radius * radius;
    var anglemask := theta <= tmax - tmin;
    circmask && anglemask
  }

  /**
   * For start and stop angles within one turn, the width the wrap rule leaves
   * is the clockwise distance from start to stop, wrapped into [0, 2 pi).
   */
  lemma SpanIsClockwiseArc(tmin: real, tmax: real)
    requires 0.0 <= tmin < FULL_TURN && 0.0 <= tmax < FULL_TURN
    ensures 0.0 <= Span(tmin, tmax) < FULL_TURN
    ensures Span(tmin, tmax) == WrapAngle(tmax - tmin)
  {
    if tmax < tmin {
      var x := tmax - tmin;
      assert (x / FULL_TURN).Floor == -1;
    } else {
      WrapReduced(tmax - tmin);
    }
  }

  /**
   * With start 350 degrees and stop 20 degrees the sector crosses north:
   * polar angles of 355 and 5 degrees are admitted, 180 degrees is not.
   */
  lemma WrapAroundSector()
    ensures AngleAdmitted(DegToRad(355.0), (350.0, 20.0))
    ensures AngleAdmitted(DegToRad(5.0), (350.0, 20.0))
    ensures !AngleAdmitted(DegToRad(180.0), (350.0, 20.0))
  {
    var tmin := DegToRad(350.0);
    assert Span(tmin, DegToRad(20.0)) == DegToRad(30.0);
    assert ((DegToRad(355.0) - tmin) / FULL_TURN).Floor == 0;
    assert ((DegToRad(5.0) - tmin) / FULL_TURN).Floor == -1;
    assert ((DegToRad(180.0) - tmin) / FULL_TURN).Floor == -1;
  }

  /** Start 0 and stop 360 degrees admit every polar angle: the span is a whole turn. */
  lemma FullCircleSector(phi: real)
    ensures AngleAdmitted(phi, (0.0, 360.0))
  {
    assert Span(DegToRad(0.0), DegToRad(360.0)) == FULL_TURN;
  }

  /** The side of the mask and distance grid, `2 * radius + 1` (`np.mgrid` of a negative size is empty). */
  function Side(radius: int): nat
  {
    if radius < 0 then 0 else 2 * radius + 1
  }

  /** Squared offset of cell (i, j) from the centre cell (radius, radius). */
  function SquaredOffset(i: int, j: int, radius: int): int
  {
    (i - radius) * (i - radius) + (j - radius) * (j - radius)
  }

  /**
   * `windshelter_prep(radius, direction, tolerance, cellsize)`: the distance
   * grid (ground distance of every cell to the centre cell) and the sector
   * mask, both `Side(radius)` square and centred at (radius, radius). The
   * pair (direction, tolerance) is passed to the mask as its (start, stop)
   * angles.
   */
  function WindshelterPrep(radius: int, direction: real, tolerance: real, cellSize: real,
                           math: Transcendentals): (r: (Matrix<real>, Matrix<bool>))
    ensures IsShape(r.0, Side(radius), Side(radius))
    ensures IsShape(r.1, Side(radius), Side(radius))
    ensures forall i, j :: 0 <= i < Side(radius) && 0 <= j < Side(radius) ==>
      r.0[i][j] == math.sqrt(SquaredOffset(i, j, radius) as real) * cellSize
    ensures r.1 == SectorMask(Side(radius), Side(radius), (radius, radius), radius,
                              (direction, tolerance), math)
  {
    var size := Side(radius);
    (Distances(radius, cellSize, math),
     SectorMask(size, size, (radius, radius), radius, (direction, tolerance), math))
  }

  /** The `dist` grid of `windshelter_prep`. */
  function Distances(radius: int, cellSize: real, math: Transcendentals): (d: Matrix<real>)
    ensures IsShape(d, Side(radius), Side(radius))
    ensures forall i, j :: 0 <= i < Side(radius) && 0 <= j < Side(radius) ==>
      d[i][j] == math.sqrt(SquaredOffset(i, j, radius) as real) * cellSize
  {
    var size := Side(radius);
    seq(size, i => seq(size, j => math.sqrt(SquaredOffset(i, j, radius) as real) * cellSize))
  }

  /**
   * The centre cell of the distance grid is at distance 0, and the centre
   * cell of the mask always passes the circular test: it is in the mask
   * exactly when its own polar angle is admitted.
   */
  lemma PrepCentre(radius: int, direction: real, tolerance: real, cellSize: real, math: Transcendentals)
    requires radius >= 0 && math.sqrt(0.0) == 0.0
    ensures var (dist, mask) := WindshelterPrep(radius, direction, tolerance, cellSize, math);
      && dist[radius][radius] == 0.0
      && (mask[radius][radius] <==> AngleAdmitted(math.arctan2(0.0, 0.0), (direction, tolerance)))
  {
    assert SquaredOffset(radius, radius, radius) == 0;
    assert InCircle(0, 0, radius);
  }

  /** The distance grid is the unit-cell distance grid scaled by the cell size. */
  lemma DistScales(radius: int, direction: real, tolerance: real, cellSize: real, math: Transcendentals,
                   i: int, j: int)
    requires 0 <= i < Side(radius) && 0 <= j < Side(radius)
    ensures WindshelterPrep(radius, direction, tolerance, cellSize, math).0[i][j]
         == cellSize * WindshelterPrep(radius, direction, tolerance, 1.0, math).0[i][j]
  {
  }

  /**
   * Off the centre, the distance is positive when the cell size is and the
   * square root is positive on positive arguments, so only the centre entry
   * is 0.
   */
  lemma DistPositiveOffCentre(radius: int, direction: real, tolerance: real, cellSize: real,
                              math: Transcendentals, i: int, j: int)
    requires 0 <= i < Side(radius) && 0 <= j < Side(radius) && (i, j) != (radius, radius)
    requires cellSize > 0.0
    requires forall v: real :: v > 0.0 ==> math.sqrt(v) > 0.0
    ensures WindshelterPrep(radius, direction, tolerance, cellSize, math).0[i][j] > 0.0
  {
    SquaredOffsetPositive(i, j, radius);
    var s := SquaredOffset(i, j, radius) as real;
    assert math.sqrt(s) > 0.0;
    assert math.sqrt(s) * cellSize > 0.0;
  }

  lemma SquaredOffsetPositive(i: int, j: int, radius: int)
    requires (i, j) != (radius, radius)
    ensures SquaredOffset(i, j, radius) > 0
  {
    var di, dj := i - radius, j - radius;
    assert di * di >= 0 && dj * dj >= 0;
    if di != 0 { assert di * di > 0; } else { assert dj * dj > 0; }
  }

  /** The mask admits only cells within `radius` of the centre. */
  lemma MaskWithinRadius(radius: int, direction: real, tolerance: real, cellSize: real,
                         math: Transcendentals, i: int, j: int)
    requires 0 <= i < Side(radius) && 0 <= j < Side(radius)
    requires WindshelterPrep(radius, direction, tolerance, cellSize, math).1[i][j]
    ensures SquaredOffset(i, j, radius) <= radius * radius
  {
  }
}
