/** GDAL's affine geotransform and the two ways the scripts turn a geocoordinate into a pixel index. */
module Geo {

  /** The six coefficients GDAL returns from `GetGeoTransform()`, gt[0] to gt[5]. */
  datatype GeoTransform = GeoTransform(
    originX: real,         // gt[0]: x of the upper-left corner of the upper-left pixel
    pixelWidth: real,      // gt[1]
    rowRotation: real,     // gt[2]: ignored by every script
    originY: real,         // gt[3]: y of the upper-left corner of the upper-left pixel
    columnRotation: real,  // gt[4]: ignored by every script
    pixelHeight: real)     // gt[5]: negative for a north-up raster

  /** Division by gt[1] and gt[5] does not raise. */
  predicate Invertible(gt: GeoTransform) {
    gt.pixelWidth != 0.0 && gt.pixelHeight != 0.0
  }

  /** A north-up raster without rotation, the layout all sampling code assumes. */
  predicate NorthUp(gt: GeoTransform) {
    gt.pixelWidth > 0.0 && gt.pixelHeight < 0.0 && gt.rowRotation == 0.0 && gt.columnRotation == 0.0
  }

  /** numpy's `around`: to the nearest integer, ties to the even one. */
  function RoundHalfEven(v: real): (n: int)
    ensures -0.5 <= v - n as real <= 0.5
    ensures (v - n as real == 0.5 || v - n as real == -0.5) ==> n % 2 == 0
  {
    var f := v.Floor;
    var frac := v - f as real;
    if frac < 0.5 then f
    else if frac > 0.5 then f + 1
    else if f % 2 == 0 then f
    else f + 1
  }

  /** Python's `int(v)` on a float: truncation toward zero. */
  function TruncTowardZero(v: real): (n: int)
    ensures 0.0 <= v ==> 0 <= n && n as real <= v < n as real + 1.0
    ensures v < 0.0 ==> n <= 0 && n as real - 1.0 < v <= n as real
  {
    if v >= 0.0 then v.Floor else -((-v).Floor)
  }

  /** The fractional column of x: `(x - gt[0]) / gt[1]`. */
  function ColumnCoordinate(gt: GeoTransform, x: real): real
    requires Invertible(gt)
  {
    (x - gt.originX) / gt.pixelWidth
  }

  /** The fractional row of y: `(y - gt[3]) / gt[5]`. */
  function RowCoordinate(gt: GeoTransform, y: real): real
    requires Invertible(gt)
  {
    (y - gt.originY) / gt.pixelHeight
  }

  /** The x of the left edge of a column, rotation terms taken as zero. */
  function GeoX(gt: GeoTransform, column: int): real {
    gt.originX + column as real * gt.pixelWidth
  }

  /** The y of the top edge of a row, rotation terms taken as zero. */
  function GeoY(gt: GeoTransform, row: int): real {
    gt.originY + row as real * gt.pixelHeight
  }

  lemma RoundOfInteger(k: int)
    ensures RoundHalfEven(k as real) == k
  {
  }

  lemma TruncOfInteger(k: int)
    ensures TruncTowardZero(k as real) == k
  {
  }

  /** Mapping a pixel corner to geocoordinates and back gives the same pixel under both index rules. */
  lemma PixelGeoRoundTrip(gt: GeoTransform, row: int, column: int)
    requires Invertible(gt)
    ensures RowCoordinate(gt, GeoY(gt, row)) == row as real
    ensures ColumnCoordinate(gt, GeoX(gt, column)) == column as real
    ensures RoundHalfEven(RowCoordinate(gt, GeoY(gt, row))) == row
    ensures RoundHalfEven(ColumnCoordinate(gt, GeoX(gt, column))) == column
    ensures TruncTowardZero(RowCoordinate(gt, GeoY(gt, row))) == row
    ensures TruncTowardZero(ColumnCoordinate(gt, GeoX(gt, column))) == column
  {
    RoundOfInteger(row);
    RoundOfInteger(column);
    TruncOfInteger(row);
    TruncOfInteger(column);
  }

  /** Truncation and rounding disagree: 0.7 pixels is index 0 for `int()` but 1 for `around`, and a
      point half a pixel before the origin truncates to index 0 rather than to -1. */
  lemma TruncationIsNotRounding()
    ensures TruncTowardZero(0.7) == 0 && RoundHalfEven(0.7) == 1
    ensures TruncTowardZero(-0.5) == 0 && (-0.5).Floor == -1
    ensures RoundHalfEven(1.5) == 2 && RoundHalfEven(2.5) == 2 && RoundHalfEven(-0.5) == 0
  {
  }
}
