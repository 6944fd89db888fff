/** RMSE between two DEMs from random points placed inside both DEMs' data footprints, each DEM
    sampled at the truncated pixel index of the point. */
module RmsePoints {
  import opened Base
  import opened Geo
  import RW = RasterWrapper
  import F = Frames
  import N = Numeric
  import RA = RmseArray

  /** shapely's `.bounds`: `(minx, miny, maxx, maxy)`. */
  datatype Bounds = Bounds(minX: real, minY: real, maxX: real, maxY: real)

  /** A data footprint polygon, reduced to what the sampling reads from it: its bounds and whether a
      point lies within it. The polygon itself comes from vectorising the raster's valid cells. */
  datatype Footprint = Footprint(bounds: Bounds, within: (real, real) -> bool)

  /** The polygon's points lie inside its bounds, as shapely's `.bounds` guarantees. */
  ghost predicate BoundsCover(p: Footprint) {
    forall x, y :: p.within(x, y) ==> p.bounds.minX <= x <= p.bounds.maxX && p.bounds.minY <= y <= p.bounds.maxY
  }

  // ---------------------------------------------------------------------------------------------
  // random_points_within

  /** The box the points are drawn from: the larger of the two minima and the smaller of the two
      maxima on each axis. */
  function DrawBox(b1: Bounds, b2: Bounds): (b: Bounds)
    ensures b.minX == N.MaxOf([b1.minX, b2.minX]) && b.minY == N.MaxOf([b1.minY, b2.minY])
    ensures b.maxX == N.MinOf([b1.maxX, b2.maxX]) && b.maxY == N.MinOf([b1.maxY, b2.maxY])
  {
    Bounds(if b1.minX >= b2.minX then b1.minX else b2.minX,
           if b1.minY >= b2.minY then b1.minY else b2.minY,
           if b1.maxX <= b2.maxX then b1.maxX else b2.maxX,
           if b1.maxY <= b2.maxY then b1.maxY else b2.maxY)
  }

  predicate InBounds(b: Bounds, x: real, y: real) {
    b.minX <= x <= b.maxX && b.minY <= y <= b.maxY
  }

  /** The draw box is exactly the intersection of the two bounds. */
  lemma DrawBoxIsIntersection(b1: Bounds, b2: Bounds, x: real, y: real)
    ensures InBounds(DrawBox(b1, b2), x, y) <==> InBounds(b1, x, y) && InBounds(b2, x, y)
  {
  }

  /** The two unit fractions `random.uniform` consumes for one candidate: first for x, then for y. */
  datatype PointDraw = PointDraw(tx: real, ty: real)

  predicate UnitPointDraw(d: PointDraw) {
    0.0 <= d.tx <= 1.0 && 0.0 <= d.ty <= 1.0
  }

  /** `Point([random.uniform(min_x, max_x), random.uniform(min_y, max_y)])` as (x, y). */
  function Candidate(b: Bounds, d: PointDraw): (real, real) {
    (N.Uniform(b.minX, b.maxX, d.tx), N.Uniform(b.minY, b.maxY, d.ty))
  }

  /** A unit draw lands in a box whose minima do not exceed its maxima. */
  lemma CandidateInBox(b: Bounds, d: PointDraw)
    requires UnitPointDraw(d) && b.minX <= b.maxX && b.minY <= b.maxY
    ensures InBounds(b, Candidate(b, d).0, Candidate(b, d).1)
  {
  }

  /** The candidate of one draw, kept when it is within both polygons. */
  function AcceptPoint(poly1: Footprint, poly2: Footprint, b: Bounds, d: PointDraw): (a: Option<(real, real)>)
    ensures a.Some? <==> poly1.within(Candidate(b, d).0, Candidate(b, d).1) && poly2.within(Candidate(b, d).0, Candidate(b, d).1)
    ensures a.Some? ==> a.value == Candidate(b, d)
  {
    var c := Candidate(b, d);
    if poly1.within(c.0, c.1) && poly2.within(c.0, c.1) then Some(c) else None
  }

  function PointAcceptor(poly1: Footprint, poly2: Footprint, b: Bounds): PointDraw -> Option<(real, real)> {
    d => AcceptPoint(poly1, poly2, b, d)
  }

  /** Every point the stream of draws would yield, in draw order. */
  function KeptPoints(poly1: Footprint, poly2: Footprint, draws: seq<PointDraw>): seq<(real, real)> {
    F.Collect(draws, PointAcceptor(poly1, poly2, DrawBox(poly1.bounds, poly2.bounds)))
  }

  /** `random_points_within(num_points, poly1, poly2)`: draw candidates in the draw box until
      num_points of them lie within both polygons. */
  method RandomPointsWithin(numPoints: int, poly1: Footprint, poly2: Footprint, draws: seq<PointDraw>)
    returns (res: F.Drawn<(real, real)>)
    ensures res == F.FirstN(KeptPoints(poly1, poly2, draws), numPoints)
  {
    var b1, b2 := poly1.bounds, poly2.bounds;
    var minX := if b1.minX >= b2.minX then b1.minX else b2.minX;
    var minY := if b1.minY >= b2.minY then b1.minY else b2.minY;
    var maxX := if b1.maxX <= b2.maxX then b1.maxX else b2.maxX;
    var maxY := if b1.maxY <= b2.maxY then b1.maxY else b2.maxY;
    ghost var box := Bounds(minX, minY, maxX, maxY);
    assert box == DrawBox(b1, b2);
    var points: seq<(real, real)> := [];
    var i := 0;
    while |points| < numPoints && i < |draws|
      invariant 0 <= i <= |draws|
      invariant points == F.Collect(draws[..i], PointAcceptor(poly1, poly2, box))
      invariant numPoints >= 0 ==> |points| <= numPoints
      invariant numPoints < 0 ==> points == []
      decreases |draws| - i
    {
      var kept := DrawPoint(poly1, poly2, minX, minY, maxX, maxY, draws[i]);
      F.CollectStep(draws, PointAcceptor(poly1, poly2, box), i);
      if kept.Some? {
        points := points + [kept.value];
      }
      i := i + 1;
    }
    F.CollectUntil(draws, PointAcceptor(poly1, poly2, box), numPoints, i, points);
    if |points| < numPoints {
      res := F.DrawsExhausted(points);
    } else {
      res := F.Complete(points);
    }
  }

  /** One candidate of the loop: a point drawn uniformly in the box, kept when it is within both polygons. */
  method DrawPoint(poly1: Footprint, poly2: Footprint, minX: real, minY: real, maxX: real, maxY: real,
                   d: PointDraw) returns (kept: Option<(real, real)>)
    ensures kept == PointAcceptor(poly1, poly2, Bounds(minX, minY, maxX, maxY))(d)
    ensures kept.Some? ==> poly1.within(kept.value.0, kept.value.1) && poly2.within(kept.value.0, kept.value.1)
    ensures kept.Some? && UnitPointDraw(d) && minX <= maxX && minY <= maxY ==>
      InBounds(Bounds(minX, minY, maxX, maxY), kept.value.0, kept.value.1)
    ensures var c := Candidate(Bounds(minX, minY, maxX, maxY), d);
      kept.None? <==> !(poly1.within(c.0, c.1) && poly2.within(c.0, c.1))
  {
    var x := N.Uniform(minX, maxX, d.tx);
    var y := N.Uniform(minY, maxY, d.ty);
    assert (x, y) == Candidate(Bounds(minX, minY, maxX, maxY), d);
    if poly1.within(x, y) && poly2.within(x, y) {
      kept := Some((x, y));
    } else {
      kept := None;
    }
  }

  /** Every point returned lies within both polygons and is the candidate of some draw. */
  lemma KeptPointsWithinBoth(poly1: Footprint, poly2: Footprint, draws: seq<PointDraw>, j: int)
    requires 0 <= j < |KeptPoints(poly1, poly2, draws)|
    ensures var p := KeptPoints(poly1, poly2, draws)[j];
      && poly1.within(p.0, p.1) && poly2.within(p.0, p.1)
      && exists i :: 0 <= i < |draws| && p == Candidate(DrawBox(poly1.bounds, poly2.bounds), draws[i])
  {
    var b := DrawBox(poly1.bounds, poly2.bounds);
    F.CollectMembers(draws, PointAcceptor(poly1, poly2, b), j);
    var i :| 0 <= i < |draws| && PointAcceptor(poly1, poly2, b)(draws[i]) == Some(KeptPoints(poly1, poly2, draws)[j]);
    assert AcceptPoint(poly1, poly2, b, draws[i]) == Some(KeptPoints(poly1, poly2, draws)[j]);
  }

  /** When both polygons lie inside their bounds, every returned point lies in both bounds, so in
      the draw box. */
  lemma KeptPointsInDrawBox(poly1: Footprint, poly2: Footprint, draws: seq<PointDraw>, j: int)
    requires BoundsCover(poly1) && BoundsCover(poly2)
    requires 0 <= j < |KeptPoints(poly1, poly2, draws)|
    ensures var p := KeptPoints(poly1, poly2, draws)[j];
      InBounds(DrawBox(poly1.bounds, poly2.bounds), p.0, p.1)
  {
    KeptPointsWithinBoth(poly1, poly2, draws, j);
    var p := KeptPoints(poly1, poly2, draws)[j];
    DrawBoxIsIntersection(poly1.bounds, poly2.bounds, p.0, p.1);
  }

  // ---------------------------------------------------------------------------------------------
  // sample_points

  /** `dem[py][px]` at the pixel of (x, y), each index `int((y - gt[3]) / gt[5])` and
      `int((x - gt[0]) / gt[1])` truncated toward zero; None stands for numpy's IndexError. */
  function CellUnder(r: RW.Sampleable, x: real, y: real): Option<real> {
    RW.CellAt(r.grid, r.ySize, r.xSize,
              TruncTowardZero(RowCoordinate(r.geotransform, y)),
              TruncTowardZero(ColumnCoordinate(r.geotransform, x)))
  }

  /** One lookup of the sampling loop: the truncated pixel of the point, indexed in the array. */
  method SampleCell(dem: RW.Sampleable, pt: (real, real)) returns (v: Option<real>)
    ensures v == CellUnder(dem, pt.0, pt.1)
    ensures var row := TruncTowardZero((pt.1 - dem.geotransform.originY) / dem.geotransform.pixelHeight);
      var col := TruncTowardZero((pt.0 - dem.geotransform.originX) / dem.geotransform.pixelWidth);
      && (v.Some? <==> -(dem.ySize as int) <= row < dem.ySize && -(dem.xSize as int) <= col < dem.xSize)
      && (v.Some? ==> v.value == dem.grid[if row < 0 then row + dem.ySize else row]
                                         [if col < 0 then col + dem.xSize else col])
  {
    var px := TruncTowardZero((pt.0 - dem.geotransform.originX) / dem.geotransform.pixelWidth);
    var py := TruncTowardZero((pt.1 - dem.geotransform.originY) / dem.geotransform.pixelHeight);
    v := RW.CellAt(dem.grid, dem.ySize, dem.xSize, py, px);
  }

  /** The four columns `sample_points` builds, one entry per point. */
  datatype SampleTable = SampleTable(
    geoms: seq<(real, real)>,   // geometry: the point itself
    dem1Values: seq<real>,      // DEM1_value
    dem2Values: seq<real>,      // DEM2_value
    diffs: seq<real>)           // Diff

  /** The table is well formed: four columns of one length, and each difference is DEM1 minus DEM2. */
  predicate Consistent(t: SampleTable) {
    && |t.dem1Values| == |t.geoms| && |t.dem2Values| == |t.geoms| && |t.diffs| == |t.geoms|
    && forall i :: 0 <= i < |t.diffs| ==> t.diffs[i] == t.dem1Values[i] - t.dem2Values[i]
  }

  /** Both cells under each point exist. */
  predicate AllCellsExist(dem1: RW.Sampleable, dem2: RW.Sampleable, pts: seq<(real, real)>) {
    forall i :: 0 <= i < |pts| ==> CellUnder(dem1, pts[i].0, pts[i].1).Some? && CellUnder(dem2, pts[i].0, pts[i].1).Some?
  }

  /** The sampling loop of `sample_points`: for each point, index both arrays at its truncated pixel
      and append the point, both values and their difference. No no-data value is filtered out. An
      index outside an array raises IndexError, reported here with the position of the point. */
  method SamplePoints(dem1: RW.Sampleable, dem2: RW.Sampleable, pts: seq<(real, real)>)
    returns (r: Result<SampleTable, nat>)
    ensures r.Ok? <==> AllCellsExist(dem1, dem2, pts)
    ensures r.Ok? ==> && Consistent(r.value) && r.value.geoms == pts
                      && forall i :: 0 <= i < |pts| ==>
                           && Some(r.value.dem1Values[i]) == CellUnder(dem1, pts[i].0, pts[i].1)
                           && Some(r.value.dem2Values[i]) == CellUnder(dem2, pts[i].0, pts[i].1)
    ensures r.Err? ==> && r.error < |pts|
                       && (CellUnder(dem1, pts[r.error].0, pts[r.error].1).None? || CellUnder(dem2, pts[r.error].0, pts[r.error].1).None?)
                       && AllCellsExist(dem1, dem2, pts[..r.error])
  {
    var dem1Vals, dem2Vals, differences: seq<real> := [], [], [];
    var geomsOut: seq<(real, real)> := [];
    for i := 0 to |pts|
      invariant |geomsOut| == i && |dem1Vals| == i && |dem2Vals| == i && |differences| == i
      invariant geomsOut == pts[..i]
      invariant forall k :: 0 <= k < i ==>
        && Some(dem1Vals[k]) == CellUnder(dem1, pts[k].0, pts[k].1)
        && Some(dem2Vals[k]) == CellUnder(dem2, pts[k].0, pts[k].1)
        && differences[k] == dem1Vals[k] - dem2Vals[k]
    {
      var pt := pts[i];
      var dem1Val := SampleCell(dem1, pt);
      var dem2Val := SampleCell(dem2, pt);
      if dem1Val.None? || dem2Val.None? {
        assert AllCellsExist(dem1, dem2, pts[..i]) by {
          forall k | 0 <= k < i
            ensures CellUnder(dem1, pts[..i][k].0, pts[..i][k].1).Some? && CellUnder(dem2, pts[..i][k].0, pts[..i][k].1).Some?
          {
            assert pts[..i][k] == pts[k];
          }
        }
        return Err(i);
      }
      var diff := dem1Val.value - dem2Val.value;
      geomsOut := geomsOut + [pt];
      dem1Vals := dem1Vals + [dem1Val.value];
      dem2Vals := dem2Vals + [dem2Val.value];
      differences := differences + [diff];
    }
    assert geomsOut == pts;
    r := Ok(SampleTable(geomsOut, dem1Vals, dem2Vals, differences));
  }

  /** The values of one DEM under each point, when every cell exists. */
  function CellsUnder(r: RW.Sampleable, pts: seq<(real, real)>): (vals: seq<real>)
    requires forall i :: 0 <= i < |pts| ==> CellUnder(r, pts[i].0, pts[i].1).Some?
    ensures |vals| == |pts| && forall i :: 0 <= i < |pts| ==> Some(vals[i]) == CellUnder(r, pts[i].0, pts[i].1)
  {
    seq(|pts|, i requires 0 <= i < |pts| && CellUnder(r, pts[i].0, pts[i].1).Some? => CellUnder(r, pts[i].0, pts[i].1).value)
  }

  /** The squared RMSE of the two value columns is the mean of the squared `Diff` column. */
  lemma RmseOfDifferences(t: SampleTable)
    requires Consistent(t) && |t.geoms| > 0
    ensures RA.MeanSquaredDifference(t.dem1Values, t.dem2Values) == N.Mean(RA.Squares(t.diffs))
  {
    assert RA.Diffs(t.dem1Values, t.dem2Values) == t.diffs;
  }

  // ---------------------------------------------------------------------------------------------
  // normalize

  /** One value mapped linearly from [vmin, vmax] onto [normMin, normMax]. */
  function Rescale(v: real, vmin: real, vmax: real, normMin: real, normMax: real): real
    requires vmax != vmin
  {
    (normMax - normMin) / (vmax - vmin) * (v - vmin) + normMin
  }

  /** `normalize(vals, norm_min, norm_max)`. `min` and `max` raise on an empty list, and the scale
      divides by zero when every value is the same. */
  method Normalize(vals: seq<real>, normMin: real, normMax: real) returns (normalized: seq<real>)
    requires |vals| > 0
    requires N.MinOf(vals) != N.MaxOf(vals)
    ensures |normalized| == |vals|
    ensures forall i :: 0 <= i < |vals| ==>
      normalized[i] == Rescale(vals[i], N.MinOf(vals), N.MaxOf(vals), normMin, normMax)
  {
    normalized := [];
    var valsMin := N.MinOf(vals);
    var valsMax := N.MaxOf(vals);
    for i := 0 to |vals|
      invariant |normalized| == i
      invariant forall k :: 0 <= k < i ==> normalized[k] == Rescale(vals[k], valsMin, valsMax, normMin, normMax)
    {
      var z := Rescale(vals[i], valsMin, valsMax, normMin, normMax);
      normalized := normalized + [z];
    }
  }

  /** The smallest value maps to normMin and the largest to normMax. */
  lemma RescaleEnds(vmin: real, vmax: real, normMin: real, normMax: real)
    requires vmax != vmin
    ensures Rescale(vmin, vmin, vmax, normMin, normMax) == normMin
    ensures Rescale(vmax, vmin, vmax, normMin, normMax) == normMax
  {
    var k := (normMax - normMin) / (vmax - vmin);
    assert k * (vmax - vmin) == normMax - normMin;
  }

  /** With normMin <= normMax the mapping keeps the order of the values. */
  lemma RescaleMonotone(a: real, b: real, vmin: real, vmax: real, normMin: real, normMax: real)
    requires vmin < vmax && normMin <= normMax && a <= b
    ensures Rescale(a, vmin, vmax, normMin, normMax) <= Rescale(b, vmin, vmax, normMin, normMax)
  {
    var k := (normMax - normMin) / (vmax - vmin);
    assert 0.0 <= k;
    MultiplyMonotone(k, a - vmin, b - vmin);
  }

  lemma MultiplyMonotone(k: real, a: real, b: real)
    requires 0.0 <= k && a <= b
    ensures k * a <= k * b
  {
  }

  /** Every normalized value lies in [normMin, normMax], the ends are reached, and the order of the
      input values is kept. */
  lemma NormalizeProperties(vals: seq<real>, normMin: real, normMax: real, i: int, j: int)
    requires |vals| > 0 && N.MinOf(vals) != N.MaxOf(vals) && normMin <= normMax
    requires 0 <= i < |vals| && 0 <= j < |vals|
    ensures var vmin, vmax := N.MinOf(vals), N.MaxOf(vals);
      && normMin <= Rescale(vals[i], vmin, vmax, normMin, normMax) <= normMax
      && (vals[i] <= vals[j] ==> Rescale(vals[i], vmin, vmax, normMin, normMax) <= Rescale(vals[j], vmin, vmax, normMin, normMax))
      && (vals[i] == vmin ==> Rescale(vals[i], vmin, vmax, normMin, normMax) == normMin)
      && (vals[i] == vmax ==> Rescale(vals[i], vmin, vmax, normMin, normMax) == normMax)
  {
    var vmin, vmax := N.MinOf(vals), N.MaxOf(vals);
    RescaleEnds(vmin, vmax, normMin, normMax);
    RescaleMonotone(vmin, vals[i], vmin, vmax, normMin, normMax);
    RescaleMonotone(vals[i], vmax, vmin, vmax, normMin, normMax);
    if vals[i] <= vals[j] {
      RescaleMonotone(vals[i], vals[j], vmin, vmax, normMin, normMax);
    }
  }

  // ---------------------------------------------------------------------------------------------
  // the script

  /** `num_pts = args.num_pts if args.num_pts else 1000`: a missing count and a count of zero both
      mean 1000. */
  function NumPoints(arg: Option<int>): (n: int)
    ensures n != 0
    ensures arg.Some? && arg.value != 0 ==> n == arg.value
    ensures arg.None? || arg.value == 0 ==> n == 1000
  {
    if arg.Some? && arg.value != 0 then arg.value else 1000
  }

  /** Why the script prints no RMSE. */
  datatype PointsError =
    | OutOfDraws            // the stream of draws ended before enough points lay within both footprints
    | OutsideRaster(k: nat) // point k indexes outside one of the arrays: IndexError
    | NoPoints              // a negative count gives no points and `calc_rmse` divides by zero

  /** The script: draw the points, sample both DEMs under them and take the RMSE of the two value
      columns (here its square). */
  method PointsRmse(dem1: RW.Sampleable, dem2: RW.Sampleable, poly1: Footprint, poly2: Footprint,
                    numPtsArg: Option<int>, draws: seq<PointDraw>)
    returns (r: Result<real, PointsError>)
    ensures var n := NumPoints(numPtsArg);
      var kept := KeptPoints(poly1, poly2, draws);
      && (r == Err(OutOfDraws) <==> |kept| < n)
      && (r == Err(NoPoints) <==> n < 0)
      && (r.Err? && r.error.OutsideRaster? <==> 0 < n <= |kept| && !AllCellsExist(dem1, dem2, kept[..n]))
      && (r.Ok? ==> && 0 < n <= |kept| && AllCellsExist(dem1, dem2, kept[..n])
                    && r.value == RA.MeanSquaredDifference(CellsUnder(dem1, kept[..n]), CellsUnder(dem2, kept[..n]))
                    && 0.0 <= r.value)
  {
    var n := NumPoints(numPtsArg);
    var drawn := RandomPointsWithin(n, poly1, poly2, draws);
    if drawn.DrawsExhausted? {
      return Err(OutOfDraws);
    }
    var sampled := SamplePoints(dem1, dem2, drawn.items);
    if sampled.Err? {
      return Err(OutsideRaster(sampled.error));
    }
    var t := sampled.value;
    if |t.geoms| == 0 {
      return Err(NoPoints);
    }
    ghost var pts := KeptPoints(poly1, poly2, draws)[..n];
    assert t.dem1Values == CellsUnder(dem1, pts) && t.dem2Values == CellsUnder(dem2, pts);
    RA.MeanSquaredDifferenceNonNegative(t.dem1Values, t.dem2Values);
    r := Ok(RA.MeanSquaredDifference(t.dem1Values, t.dem2Values));
  }
}
