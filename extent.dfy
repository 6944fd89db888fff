/** The geographic extent of a raster and the minimum bounding box of several: the box every input
    covers, in the `[ulx, uly, lrx, lry]` order that gdal.Translate's `projWin` expects. */
module Extent {
  import opened Geo
  import RW = RasterWrapper
  import N = Numeric

  /** `raster_bounds`' tuple, in its order: upper-left x, lower-right y, lower-right x, upper-left y. */
  datatype Bounds = Bounds(ulx: real, lry: real, lrx: real, uly: real)

  /** gdal.Translate's `projWin`: upper-left x, upper-left y, lower-right x, lower-right y. */
  datatype ProjWin = ProjWin(ulx: real, uly: real, lrx: real, lry: real)

  /** The corners of a raster: the upper-left corner of pixel (0, 0) and the upper-left corner of the
      pixel just past the last column and row. */
  function RasterBounds(gt: GeoTransform, xSize: nat, ySize: nat): (b: Bounds)
    ensures b.ulx == GeoX(gt, 0) && b.uly == GeoY(gt, 0)
    ensures b.lrx == GeoX(gt, xSize) && b.lry == GeoY(gt, ySize)
    ensures NorthUp(gt) ==> b.ulx <= b.lrx && b.lry <= b.uly
  {
    assert gt.pixelHeight * ySize as real == (ySize as int) as real * gt.pixelHeight;
    assert gt.pixelWidth * xSize as real == (xSize as int) as real * gt.pixelWidth;
    Bounds(gt.originX, gt.originY + gt.pixelHeight * ySize as real,
           gt.originX + gt.pixelWidth * xSize as real, gt.originY)
  }

  /** Read back through the geotransform, the extent's corners are pixel (0, 0) and pixel (xSize, ySize). */
  lemma RasterBoundsCorners(gt: GeoTransform, xSize: nat, ySize: nat)
    requires Invertible(gt)
    ensures var b := RasterBounds(gt, xSize, ySize);
      && ColumnCoordinate(gt, b.ulx) == 0.0 && RowCoordinate(gt, b.uly) == 0.0
      && ColumnCoordinate(gt, b.lrx) == xSize as real && RowCoordinate(gt, b.lry) == ySize as real
  {
    PixelGeoRoundTrip(gt, 0, 0);
    PixelGeoRoundTrip(gt, ySize, xSize);
  }

  function BoundsOf(r: RW.Raster): Bounds {
    RasterBounds(r.geotransform, r.xSize, r.ySize)
  }

  function AllBounds(rasters: seq<RW.Raster>): (bs: seq<Bounds>)
    ensures |bs| == |rasters|
    ensures forall i :: 0 <= i < |rasters| ==> bs[i] == BoundsOf(rasters[i])
  {
    seq(|rasters|, i requires 0 <= i < |rasters| => BoundsOf(rasters[i]))
  }

  function Ulxs(bs: seq<Bounds>): (s: seq<real>)
    ensures |s| == |bs| && forall i :: 0 <= i < |bs| ==> s[i] == bs[i].ulx
  {
    seq(|bs|, i requires 0 <= i < |bs| => bs[i].ulx)
  }

  function Ulys(bs: seq<Bounds>): (s: seq<real>)
    ensures |s| == |bs| && forall i :: 0 <= i < |bs| ==> s[i] == bs[i].uly
  {
    seq(|bs|, i requires 0 <= i < |bs| => bs[i].uly)
  }

  function Lrxs(bs: seq<Bounds>): (s: seq<real>)
    ensures |s| == |bs| && forall i :: 0 <= i < |bs| ==> s[i] == bs[i].lrx
  {
    seq(|bs|, i requires 0 <= i < |bs| => bs[i].lrx)
  }

  function Lrys(bs: seq<Bounds>): (s: seq<real>)
    ensures |s| == |bs| && forall i :: 0 <= i < |bs| ==> s[i] == bs[i].lry
  {
    seq(|bs|, i requires 0 <= i < |bs| => bs[i].lry)
  }

  /** The largest upper-left x, smallest upper-left y, smallest lower-right x and largest lower-right y.
      Each edge lies inside every input's extent and is some input's own edge. Python's `max([])`
      raises on an empty list, hence the precondition. */
  function MinimumBoundingBoxOf(bs: seq<Bounds>): (w: ProjWin)
    requires |bs| > 0
    ensures forall i :: 0 <= i < |bs| ==>
      bs[i].ulx <= w.ulx && w.uly <= bs[i].uly && w.lrx <= bs[i].lrx && bs[i].lry <= w.lry
    ensures exists i :: 0 <= i < |bs| && w.ulx == bs[i].ulx
    ensures exists i :: 0 <= i < |bs| && w.uly == bs[i].uly
    ensures exists i :: 0 <= i < |bs| && w.lrx == bs[i].lrx
    ensures exists i :: 0 <= i < |bs| && w.lry == bs[i].lry
  {
    ProjWin(N.MaxOf(Ulxs(bs)), N.MinOf(Ulys(bs)), N.MinOf(Lrxs(bs)), N.MaxOf(Lrys(bs)))
  }

  /** `minimum_bounding_box`: four lists of corners built in one pass, then reduced with max and min. */
  method MinimumBoundingBox(rasters: seq<RW.Raster>) returns (w: ProjWin)
    requires |rasters| > 0
    ensures w == MinimumBoundingBoxOf(AllBounds(rasters))
  {
    var ulxs, lrys, lrxs, ulys: seq<real> := [], [], [], [];
    for i := 0 to |rasters|
      invariant |ulxs| == i && |lrys| == i && |lrxs| == i && |ulys| == i
      invariant forall k :: 0 <= k < i ==>
        var b := BoundsOf(rasters[k]);
        ulxs[k] == b.ulx && lrys[k] == b.lry && lrxs[k] == b.lrx && ulys[k] == b.uly
    {
      var b := RasterBounds(rasters[i].geotransform, rasters[i].xSize, rasters[i].ySize);
      ulxs := ulxs + [b.ulx];
      lrys := lrys + [b.lry];
      lrxs := lrxs + [b.lrx];
      ulys := ulys + [b.uly];
    }
    ghost var bs := AllBounds(rasters);
    assert ulxs == Ulxs(bs) && ulys == Ulys(bs) && lrxs == Lrxs(bs) && lrys == Lrys(bs);
    w := ProjWin(N.MaxOf(ulxs), N.MinOf(ulys), N.MinOf(lrxs), N.MaxOf(lrys));
  }

  /** (x, y) lies in the closed box of a `projWin`. */
  predicate InWin(w: ProjWin, x: real, y: real) {
    w.ulx <= x <= w.lrx && w.lry <= y <= w.uly
  }

  /** (x, y) lies in the closed extent of one raster. */
  predicate InBounds(b: Bounds, x: real, y: real) {
    b.ulx <= x <= b.lrx && b.lry <= y <= b.uly
  }

  /** The minimum bounding box is exactly the intersection of the extents: a point is in it if and
      only if it is in every input's extent. */
  lemma MinimumBoundingBoxIsIntersection(bs: seq<Bounds>, x: real, y: real)
    requires |bs| > 0
    ensures InWin(MinimumBoundingBoxOf(bs), x, y) <==> forall i :: 0 <= i < |bs| ==> InBounds(bs[i], x, y)
  {
    var w := MinimumBoundingBoxOf(bs);
    if forall i :: 0 <= i < |bs| ==> InBounds(bs[i], x, y) {
      var a :| 0 <= a < |bs| && w.ulx == bs[a].ulx;
      var b :| 0 <= b < |bs| && w.uly == bs[b].uly;
      var c :| 0 <= c < |bs| && w.lrx == bs[c].lrx;
      var d :| 0 <= d < |bs| && w.lry == bs[d].lry;
      assert InBounds(bs[a], x, y) && InBounds(bs[b], x, y) && InBounds(bs[c], x, y) && InBounds(bs[d], x, y);
    }
  }

  lemma SameValues(s: seq<real>, t: seq<real>, bs: seq<Bounds>, cs: seq<Bounds>, f: Bounds -> real)
    requires forall b :: b in bs <==> b in cs
    requires |s| == |bs| && forall i :: 0 <= i < |bs| ==> s[i] == f(bs[i])
    requires |t| == |cs| && forall i :: 0 <= i < |cs| ==> t[i] == f(cs[i])
    ensures forall v :: v in s <==> v in t
  {
    forall v | v in s
      ensures v in t
    {
      var i :| 0 <= i < |s| && s[i] == v;
      assert bs[i] in cs;
      var j :| 0 <= j < |cs| && cs[j] == bs[i];
      assert t[j] == v;
    }
    forall v | v in t
      ensures v in s
    {
      var j :| 0 <= j < |t| && t[j] == v;
      assert cs[j] in bs;
      var i :| 0 <= i < |bs| && bs[i] == cs[j];
      assert s[i] == v;
    }
  }

  /** Only which extents are given matters: any reordering or repetition of the inputs gives the same box. */
  lemma MinimumBoundingBoxSameInputs(bs: seq<Bounds>, cs: seq<Bounds>)
    requires |bs| > 0 && |cs| > 0
    requires forall b :: b in bs <==> b in cs
    ensures MinimumBoundingBoxOf(bs) == MinimumBoundingBoxOf(cs)
  {
    SameValues(Ulxs(bs), Ulxs(cs), bs, cs, (b: Bounds) => b.ulx);
    SameValues(Ulys(bs), Ulys(cs), bs, cs, (b: Bounds) => b.uly);
    SameValues(Lrxs(bs), Lrxs(cs), bs, cs, (b: Bounds) => b.lrx);
    SameValues(Lrys(bs), Lrys(cs), bs, cs, (b: Bounds) => b.lry);
    N.MaxMinSameElements(Ulxs(bs), Ulxs(cs));
    N.MaxMinSameElements(Ulys(bs), Ulys(cs));
    N.MaxMinSameElements(Lrxs(bs), Lrxs(cs));
    N.MaxMinSameElements(Lrys(bs), Lrys(cs));
  }

  /** A permutation of the inputs gives the same box. */
  lemma MinimumBoundingBoxPermutation(bs: seq<Bounds>, cs: seq<Bounds>)
    requires |bs| > 0 && multiset(bs) == multiset(cs)
    ensures |cs| == |bs|
    ensures MinimumBoundingBoxOf(bs) == MinimumBoundingBoxOf(cs)
  {
    forall b
      ensures b in bs <==> b in cs
    {
      assert b in bs <==> b in multiset(bs);
      assert b in cs <==> b in multiset(cs);
    }
    assert |cs| == |multiset(cs)| == |multiset(bs)| == |bs|;
    MinimumBoundingBoxSameInputs(bs, cs);
  }

  /** A single raster's box is its own extent, reordered to `[ulx, uly, lrx, lry]`. */
  lemma MinimumBoundingBoxSingle(b: Bounds)
    ensures MinimumBoundingBoxOf([b]) == ProjWin(b.ulx, b.uly, b.lrx, b.lry)
  {
  }

  /** Disjoint inputs raise nothing: when one extent ends left of (or below) where another starts,
      the box comes back inverted. */
  lemma DisjointInputsInvertBox(bs: seq<Bounds>, i: int, j: int)
    requires 0 <= i < |bs| && 0 <= j < |bs|
    ensures bs[i].lrx < bs[j].ulx ==> MinimumBoundingBoxOf(bs).lrx < MinimumBoundingBoxOf(bs).ulx
    ensures bs[i].uly < bs[j].lry ==> MinimumBoundingBoxOf(bs).uly < MinimumBoundingBoxOf(bs).lry
  {
  }
}
