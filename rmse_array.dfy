/** RMSE between two DEMs from randomly placed sample points: the points are drawn in the minimum
    bounding box of the two rasters and kept only where both rasters hold data. */
module RmseArray {
  import opened Base
  import opened Geo
  import RW = RasterWrapper
  import E = Extent
  import F = Frames
  import N = Numeric

  // ---------------------------------------------------------------------------------------------
  // calc_rmse

  /** `[x - y for x, y in zip(l1, l2)]`: zip stops at the shorter list. */
  function Diffs(l1: seq<real>, l2: seq<real>): (d: seq<real>)
    ensures |d| == if |l1| <= |l2| then |l1| else |l2|
    ensures forall i :: 0 <= i < |d| ==> d[i] == l1[i] - l2[i]
  {
    var m := if |l1| <= |l2| then |l1| else |l2|;
    seq(m, i requires 0 <= i < m => l1[i] - l2[i])
  }

  /** `[x**2 for x in diffs]`. */
  function Squares(d: seq<real>): (q: seq<real>)
    ensures |q| == |d|
    ensures forall i :: 0 <= i < |q| ==> q[i] == d[i] * d[i] && 0.0 <= q[i]
  {
    seq(|d|, i requires 0 <= i < |d| => d[i] * d[i])
  }

  /** `calc_rmse` before its final `np.sqrt`: the mean squared difference over the zipped pairs.
      `sum(sq_diff) / len(sq_diff)` divides by zero when either list is empty. */
  function MeanSquaredDifference(l1: seq<real>, l2: seq<real>): real
    requires |l1| > 0 && |l2| > 0
  {
    N.Mean(Squares(Diffs(l1, l2)))
  }

  /** The squared RMSE is never negative. */
  lemma MeanSquaredDifferenceNonNegative(l1: seq<real>, l2: seq<real>)
    requires |l1| > 0 && |l2| > 0
    ensures 0.0 <= MeanSquaredDifference(l1, l2)
  {
    N.MeanAtLeast(Squares(Diffs(l1, l2)), 0.0);
  }

  /** The RMSE is zero exactly when every squared difference over the zipped pairs is zero. */
  lemma MeanSquaredDifferenceZeroIff(l1: seq<real>, l2: seq<real>)
    requires |l1| > 0 && |l2| > 0
    ensures var q := Squares(Diffs(l1, l2));
      MeanSquaredDifference(l1, l2) == 0.0 <==> forall i :: 0 <= i < |q| ==> q[i] == 0.0
  {
    var q := Squares(Diffs(l1, l2));
    N.SumZeroIffAllZero(q);
    assert N.Mean(q) == 0.0 <==> N.Sum(q) == 0.0;
  }

  /** When the zipped pairs agree everywhere the RMSE is zero. */
  lemma MeanSquaredDifferenceZeroWhenEqual(l1: seq<real>, l2: seq<real>)
    requires |l1| > 0 && |l2| > 0
    requires forall i :: 0 <= i < |l1| && i < |l2| ==> l1[i] == l2[i]
    ensures MeanSquaredDifference(l1, l2) == 0.0
  {
    var d := Diffs(l1, l2);
    var q := Squares(d);
    forall i | 0 <= i < |q|
      ensures q[i] == 0.0
    {
      assert d[i] == 0.0;
    }
    MeanSquaredDifferenceZeroIff(l1, l2);
  }

  /** `calc_rmse(a, a) == 0`. */
  lemma MeanSquaredDifferenceSelf(l: seq<real>)
    requires |l| > 0
    ensures MeanSquaredDifference(l, l) == 0.0
  {
    MeanSquaredDifferenceZeroWhenEqual(l, l);
  }

  /** `calc_rmse(a, b) == calc_rmse(b, a)`. */
  lemma MeanSquaredDifferenceSymmetric(l1: seq<real>, l2: seq<real>)
    requires |l1| > 0 && |l2| > 0
    ensures MeanSquaredDifference(l1, l2) == MeanSquaredDifference(l2, l1)
  {
    var q1, q2 := Squares(Diffs(l1, l2)), Squares(Diffs(l2, l1));
    forall i | 0 <= i < |q1|
      ensures q1[i] == q2[i]
    {
      assert (l1[i] - l2[i]) * (l1[i] - l2[i]) == (l2[i] - l1[i]) * (l2[i] - l1[i]);
    }
    assert q1 == q2;
  }

  /** Elements of the longer list past the shorter one's length are ignored. */
  lemma MeanSquaredDifferenceZipTruncates(l1: seq<real>, l2: seq<real>)
    requires |l1| > 0 && |l2| > 0
    ensures var m := if |l1| <= |l2| then |l1| else |l2|;
      MeanSquaredDifference(l1, l2) == MeanSquaredDifference(l1[..m], l2[..m])
  {
    var m := if |l1| <= |l2| then |l1| else |l2|;
    assert Diffs(l1, l2) == Diffs(l1[..m], l2[..m]);
  }

  // ---------------------------------------------------------------------------------------------
  // sample_random_points

  /** The two unit fractions `random()` yields for one candidate point: first for y, then for x. */
  datatype Draw = Draw(ty: real, tx: real)

  /** Both fractions lie in [0, 1], as `random()` guarantees. */
  predicate UnitDraw(d: Draw) {
    0.0 <= d.ty <= 1.0 && 0.0 <= d.tx <= 1.0
  }

  /** The candidate point: the `projWin` is unpacked as `minx, miny, maxx, maxy`, so y is drawn
      between its uly and lry and x between its ulx and lrx, and the point is built as (y, x). */
  function CandidatePoint(w: E.ProjWin, d: Draw): RW.PointYX {
    RW.PointYX(N.Uniform(w.uly, w.lry, d.ty), N.Uniform(w.ulx, w.lrx, d.tx))
  }

  /** A unit draw lands in the box, whichever way round its edges are. */
  lemma CandidateInBox(w: E.ProjWin, d: Draw)
    requires UnitDraw(d)
    ensures var p := CandidatePoint(w, d);
      && (w.ulx <= w.lrx ==> w.ulx <= p.x <= w.lrx) && (w.lrx <= w.ulx ==> w.lrx <= p.x <= w.ulx)
      && (w.lry <= w.uly ==> w.lry <= p.y <= w.uly) && (w.uly <= w.lry ==> w.uly <= p.y <= w.lry)
  {
  }

  /** Whether a sampled pair is kept: both values present and neither equal to its raster's no-data
      value (`val1 != dem1_nodata and val2 != dem2_nodata and val1 is not None and val2 is not None`). */
  predicate Keep(v1: Option<real>, nodata1: Option<real>, v2: Option<real>, nodata2: Option<real>) {
    v1 != nodata1 && v2 != nodata2 && v1.Some? && v2.Some?
  }

  /** The pair kept for one draw, if any. */
  function Accept(dem1: RW.Sampleable, dem2: RW.Sampleable, w: E.ProjWin, d: Draw): (a: Option<(real, real)>)
    ensures a.Some? ==> Keep(Some(a.value.0), dem1.nodata, Some(a.value.1), dem2.nodata)
  {
    var pt := CandidatePoint(w, d);
    var v1 := RW.SamplePoint(dem1, pt);
    var v2 := RW.SamplePoint(dem2, pt);
    if Keep(v1, dem1.nodata, v2, dem2.nodata) then Some((v1.value, v2.value)) else None
  }

  function Acceptor(dem1: RW.Sampleable, dem2: RW.Sampleable, w: E.ProjWin): Draw -> Option<(real, real)> {
    d => Accept(dem1, dem2, w, d)
  }

  /** The box both rasters cover, as `minimum_bounding_box([dem1, dem2])` computes it. */
  function SharedBox(dem1: RW.Sampleable, dem2: RW.Sampleable): E.ProjWin {
    E.MinimumBoundingBoxOf(E.AllBounds([dem1, dem2]))
  }

  /** Every pair the stream of draws would yield, in draw order. */
  function KeptPairs(dem1: RW.Sampleable, dem2: RW.Sampleable, draws: seq<Draw>): seq<(real, real)> {
    F.Collect(draws, Acceptor(dem1, dem2, SharedBox(dem1, dem2)))
  }

  /** `sample_random_points(dem1, dem2, n)`: draw candidate points one by one and append the pair of
      values for each accepted one, until n pairs are held. The result is the first n pairs the
      draws yield; when the draws run out first, all the pairs they yield. */
  method SampleRandomPoints(dem1: RW.Sampleable, dem2: RW.Sampleable, n: int, draws: seq<Draw>)
    returns (res: F.Drawn<(real, real)>)
    ensures res == F.FirstN(KeptPairs(dem1, dem2, draws), n)
  {
    var w := E.MinimumBoundingBox([dem1, dem2]);
    var sample: seq<(real, real)> := [];
    var i := 0;
    while |sample| < n && i < |draws|
      invariant 0 <= i <= |draws|
      invariant sample == F.Collect(draws[..i], Acceptor(dem1, dem2, w))
      invariant n >= 0 ==> |sample| <= n
      invariant n < 0 ==> sample == []
    {
      var pt := CandidatePoint(w, draws[i]);
      var val1 := RW.SamplePoint(dem1, pt);
      var val2 := RW.SamplePoint(dem2, pt);
      AcceptStep(dem1, dem2, w, draws, i);
      if val1 != dem1.nodata && val2 != dem2.nodata && val1.Some? && val2.Some? {
        sample := sample + [(val1.value, val2.value)];
      }
      i := i + 1;
    }
    F.CollectUntil(draws, Acceptor(dem1, dem2, w), n, i, sample);
    if |sample| < n {
      res := F.DrawsExhausted(sample);
    } else {
      res := F.Complete(sample);
    }
  }

  /** One more draw appends the pair for it exactly when both of its values are kept. */
  lemma AcceptStep(dem1: RW.Sampleable, dem2: RW.Sampleable, w: E.ProjWin, draws: seq<Draw>, i: int)
    requires 0 <= i < |draws|
    ensures var pt := CandidatePoint(w, draws[i]);
      var v1, v2 := RW.SamplePoint(dem1, pt), RW.SamplePoint(dem2, pt);
      F.Collect(draws[..i + 1], Acceptor(dem1, dem2, w))
        == F.Collect(draws[..i], Acceptor(dem1, dem2, w))
           + (if Keep(v1, dem1.nodata, v2, dem2.nodata) then [(v1.value, v2.value)] else [])
  {
    F.CollectStep(draws, Acceptor(dem1, dem2, w), i);
    assert Acceptor(dem1, dem2, w)(draws[i]) == Accept(dem1, dem2, w, draws[i]);
  }

  /** Every kept pair holds the values of both rasters at one drawn point, and neither is missing or
      equal to its raster's no-data value. */
  lemma KeptPairsValid(dem1: RW.Sampleable, dem2: RW.Sampleable, draws: seq<Draw>, j: int)
    requires 0 <= j < |KeptPairs(dem1, dem2, draws)|
    ensures var p := KeptPairs(dem1, dem2, draws)[j];
      && Some(p.0) != dem1.nodata && Some(p.1) != dem2.nodata
      && exists i :: 0 <= i < |draws| &&
           var pt := CandidatePoint(SharedBox(dem1, dem2), draws[i]);
           RW.SamplePoint(dem1, pt) == Some(p.0) && RW.SamplePoint(dem2, pt) == Some(p.1)
  {
    var accept := Acceptor(dem1, dem2, SharedBox(dem1, dem2));
    F.CollectMembers(draws, accept, j);
  }

  /** Sampling a raster against itself keeps pairs of equal values. */
  lemma KeptPairsOfSameRaster(dem: RW.Sampleable, draws: seq<Draw>, j: int)
    requires 0 <= j < |KeptPairs(dem, dem, draws)|
    ensures KeptPairs(dem, dem, draws)[j].0 == KeptPairs(dem, dem, draws)[j].1
  {
    KeptPairsValid(dem, dem, draws, j);
  }

  // ---------------------------------------------------------------------------------------------
  // dem_RMSE

  /** Why `dem_RMSE` gives no value. */
  datatype RmseError =
    | NothingToUnpack  // n <= 0: `x_vals, y_vals = zip(*[])` raises ValueError
    | OutOfDraws       // the stream of draws ended before n pairs were kept

  function Firsts(pairs: seq<(real, real)>): (s: seq<real>)
    ensures |s| == |pairs| && forall i :: 0 <= i < |pairs| ==> s[i] == pairs[i].0
  {
    seq(|pairs|, i requires 0 <= i < |pairs| => pairs[i].0)
  }

  function Seconds(pairs: seq<(real, real)>): (s: seq<real>)
    ensures |s| == |pairs| && forall i :: 0 <= i < |pairs| ==> s[i] == pairs[i].1
  {
    seq(|pairs|, i requires 0 <= i < |pairs| => pairs[i].1)
  }

  /** `dem_RMSE`: sample n pairs, unzip them and take their RMSE (here its square). Comparing a DEM
      with itself gives zero. */
  method DemRmse(dem1: RW.Sampleable, dem2: RW.Sampleable, n: int, draws: seq<Draw>)
    returns (r: Result<real, RmseError>)
    ensures var kept := KeptPairs(dem1, dem2, draws);
      && (n <= 0 <==> r == Err(NothingToUnpack))
      && (n > 0 && |kept| < n <==> r == Err(OutOfDraws))
      && (r.Ok? ==> n <= |kept| && r.value == MeanSquaredDifference(Firsts(kept[..n]), Seconds(kept[..n])))
      && (r.Ok? ==> 0.0 <= r.value)
      && (r.Ok? && dem1 == dem2 ==> r.value == 0.0)
  {
    var sampled := SampleRandomPoints(dem1, dem2, n, draws);
    if sampled.DrawsExhausted? {
      return Err(OutOfDraws);
    }
    var pairs := sampled.items;
    if |pairs| == 0 {
      return Err(NothingToUnpack);
    }
    var xs, ys := Firsts(pairs), Seconds(pairs);
    MeanSquaredDifferenceNonNegative(xs, ys);
    if dem1 == dem2 {
      forall i | 0 <= i < |pairs|
        ensures xs[i] == ys[i]
      {
        KeptPairsOfSameRaster(dem1, draws, i);
      }
      MeanSquaredDifferenceZeroWhenEqual(xs, ys);
    }
    r := Ok(MeanSquaredDifference(xs, ys));
  }
}
