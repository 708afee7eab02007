/**
 * The order statistic `np.nanquantile(data, prob)` computes with its default
 * "linear" method: sort the values that are present and interpolate between
 * the two order statistics around rank `(n - 1) * prob`.
 */
module Stats {
  import opened Wrappers

  predicate Sorted(s: seq<real>)
  {
    forall i, j :: 0 <= i <= j < |s| ==> s[i] <= s[j]
  }

  /** `s` with `x` inserted before the first element not below it. */
  function Insert(x: real, s: seq<real>): (r: seq<real>)
    requires Sorted(s)
    ensures Sorted(r)
    ensures multiset(r) == multiset(s) + multiset{x}
  {
    if s == [] then [x]
    else if x <= s[0] then [x] + s
    else
      var tail := Insert(x, s[1..]);
      assert s == [s[0]] + s[1..];
      assert forall k :: 0 <= k < |tail| ==> s[0] <= tail[k] by {
        forall k | 0 <= k < |tail| ensures s[0] <= tail[k] {
          assert tail[k] in multiset(tail);
          assert tail[k] in multiset(s[1..]) || tail[k] == x;
        }
      }
      [s[0]] + tail
  }

  /** The values of `s` in ascending order. */
  function Sort(s: seq<real>): (r: seq<real>)
    ensures Sorted(r)
    ensures multiset(r) == multiset(s)
    ensures |r| == |s|
  {
    if s == [] then []
    else
      assert s == [s[0]] + s[1..];
      Insert(s[0], Sort(s[1..]))
  }

  /** The smallest value of a non-empty sequence. */
  function Min(s: seq<real>): (m: real)
    requires |s| > 0
    ensures m in s
    ensures forall k :: 0 <= k < |s| ==> m <= s[k]
  {
    if |s| == 1 then s[0]
    else
      var rest := Min(s[1..]);
      assert rest in s;
      if s[0] <= rest then s[0] else rest
  }

  /** The largest value of a non-empty sequence. */
  function Max(s: seq<real>): (m: real)
    requires |s| > 0
    ensures m in s
    ensures forall k :: 0 <= k < |s| ==> s[k] <= m
  {
    if |s| == 1 then s[0]
    else
      var rest := Max(s[1..]);
      assert rest in s;
      if s[0] >= rest then s[0] else rest
  }

  /** The values present in `data`, in order: what `nanquantile` keeps after dropping NaN. */
  function Present(data: seq<Option<real>>): (r: seq<real>)
    ensures |r| <= |data|
  {
    if data == [] then []
    else
      var rest := Present(data[1..]);
      match data[0]
      case None => rest
      case Some(v) => [v] + rest
  }

  /** Each value is kept exactly as many times as it occurs present in `data`. */
  lemma {:induction false} PresentCounts(data: seq<Option<real>>)
    ensures forall v :: multiset(Present(data))[v] == multiset(data)[Some(v)]
  {
    if data != [] {
      PresentCounts(data[1..]);
      assert data == [data[0]] + data[1..];
    }
  }

  /** When nothing is kept, every cell is missing. */
  lemma {:induction false} NonePresent(data: seq<Option<real>>)
    requires Present(data) == []
    ensures forall k :: 0 <= k < |data| ==> data[k].None?
  {
    if data != [] {
      NonePresent(data[1..]);
      forall k | 0 <= k < |data| ensures data[k].None? {
        if k > 0 {
          assert data[k] == data[1..][k - 1];
        }
      }
    }
  }

  /** The values kept are exactly the present ones. */
  lemma PresentMembers(data: seq<Option<real>>)
    ensures forall v :: v in Present(data) <==> Some(v) in data
  {
    PresentCounts(data);
  }

  /** The virtual index `(n - 1) * p` of the quantile in a sequence of n values. */
  function Rank(n: nat, p: real): (h: real)
    requires n > 0 && 0.0 <= p <= 1.0
    ensures 0.0 <= h <= (n - 1) as real
  {
    var w := (n - 1) as real;
    MulNonNegative(w, p);
    MulNonNegative(w, 1.0 - p);
    assert w * (1.0 - p) == w - w * p;
    w * p
  }

  lemma MulNonNegative(a: real, b: real)
    requires a >= 0.0 && b >= 0.0
    ensures a * b >= 0.0
  {
  }

  /**
   * The value at virtual index h of a sorted sequence: the order statistic
   * at the floor of h, moved towards the next one by the fraction of h.
   */
  function Interpolate(s: seq<real>, h: real): (q: real)
    requires Sorted(s) && 0.0 <= h <= (|s| - 1) as real
    ensures s[h.Floor] <= q
    ensures h.Floor + 1 < |s| ==> q <= s[h.Floor + 1]
    ensures h.Floor + 1 >= |s| ==> q == s[|s| - 1]
  {
    var k := h.Floor;
    var t := h - k as real;
    if k + 1 < |s| then
      InterpolateBetween(s[k], s[k + 1], t);
      s[k] + t * (s[k + 1] - s[k])
    else
      s[k]
  }

  lemma InterpolateBetween(lo: real, hi: real, t: real)
    requires lo <= hi && 0.0 <= t <= 1.0
    ensures lo <= lo + t * (hi - lo) <= hi
  {
    MulNonNegative(t, hi - lo);
    MulNonNegative(1.0 - t, hi - lo);
    assert (1.0 - t) * (hi - lo) == (hi - lo) - t * (hi - lo);
  }

  /**
   * Linear interpolation between the order statistics of a sorted, non-empty
   * sequence at probability p.
   */
  function Quantile(s: seq<real>, p: real): (q: real)
    requires Sorted(s) && |s| > 0 && 0.0 <= p <= 1.0
    ensures s[0] <= q <= s[|s| - 1]
  {
    var h := Rank(|s|, p);
    var q := Interpolate(s, h);
    assert s[0] <= s[h.Floor];
    assert h.Floor + 1 < |s| ==> s[h.Floor + 1] <= s[|s| - 1];
    q
  }

  /**
   * `np.nanquantile(data, prob)`: an error when prob is outside [0, 1],
   * missing when no value is present, otherwise the interpolated quantile of
   * the values present, which lies between their minimum and maximum.
   */
  function NanQuantile(data: seq<Option<real>>, prob: real): (r: Result<Option<real>>)
    ensures r.Err? <==> !(0.0 <= prob <= 1.0)
    ensures r.Err? ==> r.error == QuantileOutOfRange
    ensures r == Ok(None) <==> 0.0 <= prob <= 1.0 && forall k :: 0 <= k < |data| ==> data[k].None?
    ensures r.Ok? ==> (r.value.Some? <==> Present(data) != [])
    ensures r.Ok? && r.value.Some? ==>
      Min(Present(data)) <= r.value.value <= Max(Present(data))
  {
    if !(0.0 <= prob <= 1.0) then Err(QuantileOutOfRange)
    else
      var values := Present(data);
      PresentMembers(data);
      if values == [] then
        NonePresent(data);
        Ok(None)
      else
        var sorted := Sort(values);
        SortedEnds(values);
        assert values[0] in values;
        Ok(Some(Quantile(sorted, prob)))
  }

  /** The ends of the sorted sequence are the minimum and the maximum. */
  lemma SortedEnds(s: seq<real>)
    requires |s| > 0
    ensures Sort(s)[0] == Min(s) && Sort(s)[|s| - 1] == Max(s)
  {
    var r := Sort(s);
    var lo, hi := Min(s), Max(s);
    assert r[0] in multiset(s) && r[|s| - 1] in multiset(s);
    var i :| 0 <= i < |s| && s[i] == r[0];
    var j :| 0 <= j < |s| && s[j] == r[|s| - 1];
    assert lo in multiset(r) && hi in multiset(r);
    var a :| 0 <= a < |r| && r[a] == lo;
    var b :| 0 <= b < |r| && r[b] == hi;
    assert r[0] <= r[a] && r[b] <= r[|s| - 1];
  }

  /** Interpolation does not decrease as the virtual index grows. */
  lemma {:induction false} InterpolateMonotone(s: seq<real>, h1: real, h2: real)
    requires Sorted(s) && 0.0 <= h1 <= h2 <= (|s| - 1) as real
    ensures Interpolate(s, h1) <= Interpolate(s, h2)
  {
    var k1, k2 := h1.Floor, h2.Floor;
    if k1 == k2 {
      if k1 + 1 < |s| {
        var lo, hi := s[k1], s[k1 + 1];
        var t1, t2 := h1 - k1 as real, h2 - k2 as real;
        assert Interpolate(s, h1) == lo + t1 * (hi - lo);
        assert Interpolate(s, h2) == lo + t2 * (hi - lo);
        MulNonNegative(t2 - t1, hi - lo);
        assert (t2 - t1) * (hi - lo) == t2 * (hi - lo) - t1 * (hi - lo);
      }
    } else {
      assert k1 + 1 <= k2;
      assert s[k1 + 1] <= s[k2];
    }
  }

  /** Raising the probability never lowers the quantile. */
  lemma QuantileMonotone(s: seq<real>, p1: real, p2: real)
    requires Sorted(s) && |s| > 0 && 0.0 <= p1 <= p2 <= 1.0
    ensures Quantile(s, p1) <= Quantile(s, p2)
  {
    assert Rank(|s|, p1) <= Rank(|s|, p2) by {
      var w := (|s| - 1) as real;
      MulNonNegative(w, p2 - p1);
      assert w * (p2 - p1) == w * p2 - w * p1;
    }
    InterpolateMonotone(s, Rank(|s|, p1), Rank(|s|, p2));
  }

  /** The quantile at 0 is the minimum and at 1 the maximum. */
  lemma QuantileEnds(s: seq<real>)
    requires |s| > 0
    ensures Quantile(Sort(s), 0.0) == Min(s)
    ensures Quantile(Sort(s), 1.0) == Max(s)
  {
    var r := Sort(s);
    SortedEnds(s);
    var top := (|s| - 1) as real;
    assert Rank(|s|, 0.0) == 0.0;
    assert Interpolate(r, 0.0) == r[0];
    assert Rank(|s|, 1.0) == top;
    assert top.Floor == |s| - 1;
    assert Interpolate(r, top) == r[|s| - 1];
  }

  /** `nanquantile` is monotone in the probability. */
  lemma NanQuantileMonotone(data: seq<Option<real>>, p1: real, p2: real)
    requires 0.0 <= p1 <= p2 <= 1.0
    requires NanQuantile(data, p1).Ok? && NanQuantile(data, p1).value.Some?
    ensures NanQuantile(data, p2).Ok? && NanQuantile(data, p2).value.Some?
    ensures NanQuantile(data, p1).value.value <= NanQuantile(data, p2).value.value
  {
    QuantileMonotone(Sort(Present(data)), p1, p2);
  }

  /** If every present value equals c, the quantile is c at every probability. */
  lemma NanQuantileOfConstant(data: seq<Option<real>>, prob: real, c: real)
    requires 0.0 <= prob <= 1.0
    requires forall k :: 0 <= k < |data| && data[k].Some? ==> data[k].value == c
    requires exists k :: 0 <= k < |data| && data[k].Some?
    ensures NanQuantile(data, prob) == Ok(Some(c))
  {
    var k :| 0 <= k < |data| && data[k].Some?;
    assert data[k] in data;
    PresentMembers(data);
    assert data[k].value in Present(data);
    PresentAllEqual(data, c);
    var r := NanQuantile(data, prob);
    assert r.Ok? && r.value.Some?;
    assert Min(Present(data)) <= r.value.value <= Max(Present(data));
    assert r.value.value == c;
    assert r == Ok(Some(c));
  }

  /**
   * The "linear" method at the median of four ascending values interpolates
   * half way between the two middle ones.
   */
  lemma MedianOfFour(a: real, b: real, c: real, d: real)
    requires a <= b <= c <= d
    ensures NanQuantile([Some(a), Some(b), Some(c), Some(d)], 0.5) == Ok(Some((b + c) / 2.0))
  {
    PresentCons(Some(d), [], []);
    PresentCons(Some(c), [Some(d)], [d]);
    PresentCons(Some(b), [Some(c), Some(d)], [c, d]);
    PresentCons(Some(a), [Some(b), Some(c), Some(d)], [b, c, d]);
    QuantileHalfOfFour(a, b, c, d);
    NanQuantileOfSorted([Some(a), Some(b), Some(c), Some(d)], [a, b, c, d], 0.5, (b + c) / 2.0);
  }

  /**
   * At the lower quartile of four ascending values the rank is 0.75, so the
   * "linear" method moves three quarters of the way from the first value to
   * the second (the "midpoint" method would stop half way).
   */
  lemma LowerQuartileOfFour(a: real, b: real, c: real, d: real)
    requires a <= b <= c <= d
    ensures NanQuantile([Some(a), Some(b), Some(c), Some(d)], 0.25) == Ok(Some(a + 0.75 * (b - a)))
  {
    PresentCons(Some(d), [], []);
    PresentCons(Some(c), [Some(d)], [d]);
    PresentCons(Some(b), [Some(c), Some(d)], [c, d]);
    PresentCons(Some(a), [Some(b), Some(c), Some(d)], [b, c, d]);
    QuantileQuarterOfFour(a, b, c, d);
    NanQuantileOfSorted([Some(a), Some(b), Some(c), Some(d)], [a, b, c, d], 0.25, a + 0.75 * (b - a));
  }

  /**
   * Repeated values keep their weight: the median of a, a, b is a, where a
   * sample without the repeat would give the midpoint of a and b.
   */
  lemma MedianKeepsDuplicates(a: real, b: real)
    requires a <= b
    ensures NanQuantile([Some(a), Some(a), Some(b)], 0.5) == Ok(Some(a))
  {
    PresentCons(Some(b), [], []);
    PresentCons(Some(a), [Some(b)], [b]);
    PresentCons(Some(a), [Some(a), Some(b)], [a, b]);
    QuantileHalfOfThree(a, b);
    NanQuantileOfSorted([Some(a), Some(a), Some(b)], [a, a, b], 0.5, a);
  }

  /** The median of 1, 2, 3, 4 is 2.5, and the median of 1, 1, 5 is 1. */
  lemma MedianExamples()
    ensures NanQuantile([Some(1.0), Some(2.0), Some(3.0), Some(4.0)], 0.5) == Ok(Some(2.5))
    ensures NanQuantile([Some(1.0), Some(1.0), Some(5.0)], 0.5) == Ok(Some(1.0))
  {
    MedianOfFour(1.0, 2.0, 3.0, 4.0);
    MedianKeepsDuplicates(1.0, 5.0);
  }

  /** Once the present values are known and ascending, the result is their quantile. */
  lemma NanQuantileOfSorted(data: seq<Option<real>>, values: seq<real>, p: real, q: real)
    requires Present(data) == values && Sorted(values) && values != [] && 0.0 <= p <= 1.0
    requires Quantile(values, p) == q
    ensures NanQuantile(data, p) == Ok(Some(q))
  {
    SortOfSorted(values);
  }

  lemma AscendingFour(a: real, b: real, c: real, d: real)
    requires a <= b <= c <= d
    ensures Sorted([a, b, c, d])
  {
    var s := [a, b, c, d];
    forall i, j | 0 <= i <= j < 4 ensures s[i] <= s[j] {
    }
  }

  lemma AscendingThree(a: real, b: real)
    requires a <= b
    ensures Sorted([a, a, b])
  {
    var s := [a, a, b];
    forall i, j | 0 <= i <= j < 3 ensures s[i] <= s[j] {
    }
  }

  lemma QuantileHalfOfFour(a: real, b: real, c: real, d: real)
    requires a <= b <= c <= d
    ensures Sorted([a, b, c, d]) && Quantile([a, b, c, d], 0.5) == (b + c) / 2.0
  {
    AscendingFour(a, b, c, d);
    RankOf(4, 0.5, 1, 0.5);
  }

  lemma QuantileQuarterOfFour(a: real, b: real, c: real, d: real)
    requires a <= b <= c <= d
    ensures Sorted([a, b, c, d]) && Quantile([a, b, c, d], 0.25) == a + 0.75 * (b - a)
  {
    AscendingFour(a, b, c, d);
    RankOf(4, 0.25, 0, 0.75);
  }

  lemma QuantileHalfOfThree(a: real, b: real)
    requires a <= b
    ensures Sorted([a, a, b]) && Quantile([a, a, b], 0.5) == a
  {
    AscendingThree(a, b);
    RankOf(3, 0.5, 1, 0.0);
  }

  /** The rank `(n - 1) * p` split into its whole part and its fraction. */
  lemma RankOf(n: nat, p: real, k: int, t: real)
    requires n > 0 && 0.0 <= p <= 1.0
    requires (n - 1) as real * p == k as real + t && 0.0 <= t < 1.0
    ensures Rank(n, p).Floor == k && Rank(n, p) - k as real == t
  {
  }

  /** `Present` keeps a present head value in front of the rest. */
  lemma PresentCons(x: Option<real>, rest: seq<Option<real>>, kept: seq<real>)
    requires Present(rest) == kept
    ensures Present([x] + rest) == if x.Some? then [x.value] + kept else kept
  {
    assert ([x] + rest)[1..] == rest;
  }

  /** Sorting an ascending sequence leaves it unchanged. */
  lemma {:induction false} SortOfSorted(s: seq<real>)
    requires Sorted(s)
    ensures Sort(s) == s
  {
    if s != [] {
      assert Sorted(s[1..]);
      SortOfSorted(s[1..]);
      assert s == [s[0]] + s[1..];
    }
  }

  lemma PresentAllEqual(data: seq<Option<real>>, c: real)
    requires forall k :: 0 <= k < |data| && data[k].Some? ==> data[k].value == c
    requires Present(data) != []
    ensures Min(Present(data)) == c && Max(Present(data)) == c
  {
    var values := Present(data);
    PresentMembers(data);
    var lo, hi := Min(values), Max(values);
    assert Some(lo) in data && Some(hi) in data;
    var a :| 0 <= a < |data| && data[a] == Some(lo);
    var b :| 0 <= b < |data| && data[b] == Some(hi);
  }
}
