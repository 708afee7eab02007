/**
 * `windshelter`: reduce one window to the quantile of the shelter angles of
 * its usable cells. NaN is modelled as a missing (`None`) cell.
 */
module Reducer {
  import opened Wrappers
  import opened Numerics
  import opened Grids
  import opened Stats

  /** A square n x n window, distance grid and mask, with the centre cell inside. */
  predicate WellShaped(x: Matrix<real>, dist: Matrix<real>, mask: Matrix<bool>, radius: nat)
  {
    IsShape(x, |x|, |x|) && IsShape(dist, |x|, |x|) && IsShape(mask, |x|, |x|) && radius < |x|
  }

  /** `x * mask`: cells outside the mask become 0. */
  function Masked(x: Matrix<real>, mask: Matrix<bool>): Matrix<real>
    requires IsShape(x, |x|, |x|) && IsShape(mask, |x|, |x|)
  {
    seq(|x|, i requires 0 <= i < |x| =>
      seq(|x|, j requires 0 <= j < |x| => if mask[i][j] then x[i][j] else 0.0))
  }

  /** `data[data == nodata] = nan; data[data == 0] = nan`. */
  function MarkMissing(data: Matrix<real>, nodata: real): Matrix<Option<real>>
    requires IsShape(data, |data|, |data|)
  {
    seq(|data|, i requires 0 <= i < |data| =>
      seq(|data|, j requires 0 <= j < |data| =>
        var v := data[i][j];
        if v == nodata || v == 0.0 then None else Some(v)))
  }

  /** `np.arctan((data - center) / dist)`: NaN in either operand gives NaN. */
  function Angles(data: Matrix<Option<real>>, centre: Option<real>, dist: Matrix<real>,
                  math: Transcendentals): Matrix<Option<real>>
    requires IsShape(data, |data|, |data|) && IsShape(dist, |data|, |data|)
  {
    seq(|data|, i requires 0 <= i < |data| =>
      seq(|data|, j requires 0 <= j < |data| =>
        match (data[i][j], centre)
        case (Some(v), Some(c)) => Some(math.slope(v - c, dist[i][j]))
        case _ => None))
  }

  /**
   * The centre value read at `data[radius, radius]`, after masking and the
   * nodata/zero replacement: present exactly when the centre is in the mask
   * and its elevation is neither `nodata` nor 0.
   */
  function CentreValue(x: Matrix<real>, mask: Matrix<bool>, nodata: real, radius: nat): Option<real>
    requires IsShape(x, |x|, |x|) && IsShape(mask, |x|, |x|) && radius < |x|
  {
    if mask[radius][radius] && x[radius][radius] != nodata && x[radius][radius] != 0.0
    then Some(x[radius][radius]) else None
  }

  /**
   * A cell takes part in the statistic when it is not the centre, lies in
   * the mask, and its elevation is neither `nodata` nor 0.
   */
  predicate Retained(x: Matrix<real>, mask: Matrix<bool>, nodata: real, radius: nat, i: int, j: int)
    requires IsShape(x, |x|, |x|) && IsShape(mask, |x|, |x|)
    requires 0 <= i < |x| && 0 <= j < |x|
  {
    (i, j) != (radius, radius) && mask[i][j] && x[i][j] != nodata && x[i][j] != 0.0
  }

  /**
   * The array of shelter angles after lines 78-83: a cell has an angle
   * exactly when it is retained and the centre value is present, and the
   * angle is `arctan((elevation - centre) / distance)`.
   */
  function ShelterAngles(x: Matrix<real>, nodata: real, dist: Matrix<real>, mask: Matrix<bool>,
                         radius: nat, math: Transcendentals): (a: Matrix<Option<real>>)
    requires WellShaped(x, dist, mask, radius)
    ensures IsShape(a, |x|, |x|)
    ensures forall i, j :: 0 <= i < |x| && 0 <= j < |x| ==>
      a[i][j] == if Retained(x, mask, nodata, radius, i, j) && CentreValue(x, mask, nodata, radius).Some?
                 then Some(math.slope(x[i][j] - CentreValue(x, mask, nodata, radius).value, dist[i][j]))
                 else None
  {
    var data := MarkMissing(Masked(x, mask), nodata);
    var centre := data[radius][radius];
    var cleared := data[radius := data[radius][radius := None]];
    assert centre == CentreValue(x, mask, nodata, radius);
    Angles(cleared, centre, dist, math)
  }

  /**
   * `windshelter(x, profile, prob, dist, mask, radius)`: the `prob`-quantile
   * of the shelter angles of the retained cells. It fails only for a
   * probability outside [0, 1], is missing exactly when the centre value is
   * missing or no cell is retained, and otherwise lies between the least and
   * the greatest retained angle.
   */
  function Windshelter(x: Matrix<real>, nodata: real, prob: real, dist: Matrix<real>,
                       mask: Matrix<bool>, radius: nat, math: Transcendentals): (r: Result<Option<real>>)
    requires WellShaped(x, dist, mask, radius)
    ensures r.Err? <==> !(0.0 <= prob <= 1.0)
    ensures r == Ok(None) <==>
      && 0.0 <= prob <= 1.0
      && (|| CentreValue(x, mask, nodata, radius).None?
          || forall i, j :: 0 <= i < |x| && 0 <= j < |x| ==> !Retained(x, mask, nodata, radius, i, j))
    ensures r.Ok? && r.value.Some? ==>
      var angles := Present(Flatten(ShelterAngles(x, nodata, dist, mask, radius, math)));
      angles != [] && Min(angles) <= r.value.value <= Max(angles)
  {
    var angles := ShelterAngles(x, nodata, dist, mask, radius, math);
    AllMissing(angles);
    NanQuantile(Flatten(angles), prob)
  }

  /** The flattened array has no present cell exactly when the array has none. */
  lemma AllMissing(a: Matrix<Option<real>>)
    ensures (forall k :: 0 <= k < |Flatten(a)| ==> Flatten(a)[k].None?) <==>
            (forall i, j :: 0 <= i < |a| && 0 <= j < |a[i]| ==> a[i][j].None?)
  {
    var f := Flatten(a);
    if forall k :: 0 <= k < |f| ==> f[k].None? {
      forall i, j | 0 <= i < |a| && 0 <= j < |a[i]| ensures a[i][j].None? {
        FlattenContains(a, i, j);
        var k :| 0 <= k < |f| && f[k] == a[i][j];
      }
    }
    if forall i, j :: 0 <= i < |a| && 0 <= j < |a[i]| ==> a[i][j].None? {
      forall k | 0 <= k < |f| ensures f[k].None? {
        var i, j := FlattenSource(a, k);
      }
    }
  }

  /** With radius 0 the window is its centre alone, which is cleared, so the value is missing. */
  lemma CentreOnlyWindow(x: Matrix<real>, nodata: real, prob: real, dist: Matrix<real>,
                         mask: Matrix<bool>, math: Transcendentals)
    requires WellShaped(x, dist, mask, 0) && |x| == 1
    requires 0.0 <= prob <= 1.0
    ensures Windshelter(x, nodata, prob, dist, mask, 0, math) == Ok(None)
  {
    assert forall i, j :: 0 <= i < 1 && 0 <= j < 1 ==> (i, j) == (0, 0);
  }

  /**
   * The centre elevation is read from the masked window, so a window whose
   * mask leaves out the centre has a missing value.
   */
  lemma CentreOutsideMask(x: Matrix<real>, nodata: real, prob: real, dist: Matrix<real>,
                          mask: Matrix<bool>, radius: nat, math: Transcendentals)
    requires WellShaped(x, dist, mask, radius) && !mask[radius][radius]
    requires 0.0 <= prob <= 1.0
    ensures Windshelter(x, nodata, prob, dist, mask, radius, math) == Ok(None)
  {
    assert CentreValue(x, mask, nodata, radius).None?;
  }

  /** The reducer's value does not decrease as `prob` increases. */
  lemma WindshelterMonotone(x: Matrix<real>, nodata: real, dist: Matrix<real>, mask: Matrix<bool>,
                            radius: nat, math: Transcendentals, p1: real, p2: real)
    requires WellShaped(x, dist, mask, radius)
    requires 0.0 <= p1 <= p2 <= 1.0
    requires Windshelter(x, nodata, p1, dist, mask, radius, math).Ok?
    requires Windshelter(x, nodata, p1, dist, mask, radius, math).value.Some?
    ensures Windshelter(x, nodata, p2, dist, mask, radius, math).Ok?
    ensures Windshelter(x, nodata, p2, dist, mask, radius, math).value.Some?
    ensures Windshelter(x, nodata, p1, dist, mask, radius, math).value.value
         <= Windshelter(x, nodata, p2, dist, mask, radius, math).value.value
  {
    NanQuantileMonotone(Flatten(ShelterAngles(x, nodata, dist, mask, radius, math)), p1, p2);
  }

  /**
   * Flat terrain: when every retained cell has the centre's elevation and
   * `arctan(0 / d)` is 0, the shelter value is 0 as soon as one cell is
   * retained and the centre value is present.
   */
  lemma FlatTerrain(x: Matrix<real>, nodata: real, prob: real, dist: Matrix<real>,
                    mask: Matrix<bool>, radius: nat, math: Transcendentals, i0: int, j0: int)
    requires WellShaped(x, dist, mask, radius)
    requires 0.0 <= prob <= 1.0
    requires CentreValue(x, mask, nodata, radius).Some?
    requires 0 <= i0 < |x| && 0 <= j0 < |x| && Retained(x, mask, nodata, radius, i0, j0)
    requires forall i, j :: 0 <= i < |x| && 0 <= j < |x| && Retained(x, mask, nodata, radius, i, j)
               ==> x[i][j] == x[radius][radius]
    requires forall d :: math.slope(0.0, d) == 0.0
    ensures Windshelter(x, nodata, prob, dist, mask, radius, math) == Ok(Some(0.0))
  {
    var a: Matrix<Option<real>> := ShelterAngles(x, nodata, dist, mask, radius, math);
    FlatAngles(x, nodata, dist, mask, radius, math);
    ConstantFlatten(a, i0, j0);
    NanQuantileOfConstant(Flatten(a), prob, 0.0);
  }

  /** On flat terrain every angle that is present is 0. */
  lemma FlatAngles(x: Matrix<real>, nodata: real, dist: Matrix<real>, mask: Matrix<bool>,
                   radius: nat, math: Transcendentals)
    requires WellShaped(x, dist, mask, radius)
    requires forall i, j :: 0 <= i < |x| && 0 <= j < |x| && Retained(x, mask, nodata, radius, i, j)
               ==> x[i][j] == x[radius][radius]
    requires forall d :: math.slope(0.0, d) == 0.0
    ensures var a := ShelterAngles(x, nodata, dist, mask, radius, math);
      forall i, j :: 0 <= i < |x| && 0 <= j < |x| && a[i][j].Some? ==> a[i][j].value == 0.0
  {
    var a: Matrix<Option<real>> := ShelterAngles(x, nodata, dist, mask, radius, math);
    forall i, j | 0 <= i < |x| && 0 <= j < |x| && a[i][j].Some? ensures a[i][j].value == 0.0 {
      assert Retained(x, mask, nodata, radius, i, j);
      assert CentreValue(x, mask, nodata, radius).value == x[radius][radius];
      assert x[i][j] - x[radius][radius] == 0.0;
      assert a[i][j] == Some(math.slope(0.0, dist[i][j]));
      var run := dist[i][j];
      assert math.slope(0.0, run) == 0.0;
    }
  }

  /** A matrix whose present entries are all 0, with one present entry, flattens to such a sequence. */
  lemma ConstantFlatten(a: Matrix<Option<real>>, i0: int, j0: int)
    requires 0 <= i0 < |a| && 0 <= j0 < |a[i0]| && a[i0][j0].Some?
    requires forall i, j :: 0 <= i < |a| && 0 <= j < |a[i]| && a[i][j].Some? ==> a[i][j].value == 0.0
    ensures forall k :: 0 <= k < |Flatten(a)| && Flatten(a)[k].Some? ==> Flatten(a)[k].value == 0.0
    ensures exists k :: 0 <= k < |Flatten(a)| && Flatten(a)[k].Some?
  {
    FlattenContains(a, i0, j0);
    var k0 :| 0 <= k0 < |Flatten(a)| && Flatten(a)[k0] == a[i0][j0];
    forall k | 0 <= k < |Flatten(a)| && Flatten(a)[k].Some? ensures Flatten(a)[k].value == 0.0 {
      var i, j := FlattenSource(a, k);
    }
  }
}
