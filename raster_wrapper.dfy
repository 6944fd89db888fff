/** The `Raster` wrapper: a decoded single-band raster and its point and window sampling. */
module RasterWrapper {
  import opened Base
  import opened Geo
  import N = Numeric

  /** The cell value `SampleWindow` treats as no-data. It is hard-coded and is not the raster's own
      no-data value. */
  const WindowNoData: real := -9999.0

  /** A decoded raster. Its fields are set once when it is opened and only read afterwards. */
  datatype Raster = Raster(
    grid: seq<seq<real>>,        // `ReadAsArray()` of a one-band raster: ySize rows of xSize cells
    geotransform: GeoTransform,
    xSize: nat,
    ySize: nat,
    nodata: Option<real>)        // band 1's `GetNoDataValue()`, None when the band has none
  {
    /** The array has the raster's shape. */
    predicate Valid() {
      |grid| == ySize && forall row :: 0 <= row < ySize ==> |grid[row]| == xSize
    }
  }

  /** A raster that can be sampled: the array has the raster's shape and the geotransform's divisions
      by gt[1] and gt[5] do not raise. */
  type Sampleable = r: Raster | r.Valid() && Invertible(r.geotransform)
    witness Raster([], GeoTransform(0.0, 1.0, 0.0, 0.0, 0.0, -1.0), 0, 0, None)

  /** A geocoordinate in the (y, x) order that `SamplePoint` and `SampleWindow` expect. */
  datatype PointYX = PointYX(y: real, x: real)

  /** numpy's handling of one integer index into an axis of length n: negative indices count from the
      end, and anything outside [-n, n) raises IndexError (None here). */
  function NumpyIndex(i: int, n: nat): (k: Option<nat>)
    ensures k.Some? <==> -(n as int) <= i < n
    ensures k.Some? ==> k.value < n && k.value as int == (if i < 0 then i + n else i)
  {
    if 0 <= i < n then Some(i)
    else if -(n as int) <= i < 0 then Some(i + n)
    else None
  }

  /** `Array[row, col]` with numpy's index rules; None stands for the IndexError. */
  function CellAt(grid: seq<seq<real>>, ySize: nat, xSize: nat, row: int, col: int): Option<real>
    requires |grid| == ySize && forall i :: 0 <= i < ySize ==> |grid[i]| == xSize
  {
    match (NumpyIndex(row, ySize), NumpyIndex(col, xSize))
    case (Some(i), Some(j)) => Some(grid[i][j])
    case _ => None
  }

  /** The pixel row of a y coordinate: rounded, half to even. */
  function PixelRow(r: Raster, y: real): int
    requires Invertible(r.geotransform)
  {
    RoundHalfEven(RowCoordinate(r.geotransform, y))
  }

  /** The pixel column of an x coordinate: rounded, half to even. */
  function PixelColumn(r: Raster, x: real): int
    requires Invertible(r.geotransform)
  {
    RoundHalfEven(ColumnCoordinate(r.geotransform, x))
  }

  /** `SamplePoint`: the cell under the rounded pixel position of the point, or None where indexing the
      array raises IndexError. The raster's no-data value is returned like any other value. */
  function SamplePoint(r: Raster, point: PointYX): (v: Option<real>)
    requires r.Valid() && Invertible(r.geotransform)
    ensures var py, px := PixelRow(r, point.y), PixelColumn(r, point.x);
      && (v.Some? <==> -(r.ySize as int) <= py < r.ySize && -(r.xSize as int) <= px < r.xSize)
      && (0 <= py < r.ySize && 0 <= px < r.xSize ==> v == Some(r.grid[py][px]))
      && (v.Some? ==> v == Some(r.grid[if py < 0 then py + r.ySize else py][if px < 0 then px + r.xSize else px]))
  {
    CellAt(r.grid, r.ySize, r.xSize, PixelRow(r, point.y), PixelColumn(r, point.x))
  }

  /** Sampling at the upper-left corner of a pixel returns that pixel. */
  lemma SamplePointAtPixelCorner(r: Raster, row: nat, col: nat)
    requires r.Valid() && Invertible(r.geotransform)
    requires row < r.ySize && col < r.xSize
    ensures SamplePoint(r, PointYX(GeoY(r.geotransform, row), GeoX(r.geotransform, col))) == Some(r.grid[row][col])
  {
    PixelGeoRoundTrip(r.geotransform, row, col);
  }

  /** A point whose rounded position lies at or beyond the raster's far edge gives None, never a fault. */
  lemma SamplePointPastFarEdge(r: Raster, point: PointYX)
    requires r.Valid() && Invertible(r.geotransform)
    requires PixelRow(r, point.y) >= r.ySize || PixelColumn(r, point.x) >= r.xSize
    ensures SamplePoint(r, point) == None
  {
  }

  lemma DivideProduct(c: real, d: real)
    requires d != 0.0
    ensures (c * d) / d == c
  {
  }

  /** Rounding, not flooring: on a north-up raster with an even number of rows, the centre of a pixel
      in the last row rounds (half to even) to the row just past the edge, so the point samples None. */
  lemma {:induction false} SamplePointLastRowCentre(r: Raster, col: nat)
    requires r.Valid() && NorthUp(r.geotransform)
    requires r.ySize >= 2 && r.ySize % 2 == 0 && col < r.xSize
    ensures SamplePoint(r, PointYX(GeoY(r.geotransform, r.ySize - 1) + r.geotransform.pixelHeight / 2.0,
                                   GeoX(r.geotransform, col))) == None
  {
    var gt := r.geotransform;
    var y := GeoY(gt, r.ySize - 1) + gt.pixelHeight / 2.0;
    var c := (r.ySize - 1) as real + 0.5;
    assert y - gt.originY == c * gt.pixelHeight;
    DivideProduct(c, gt.pixelHeight);
    assert RowCoordinate(gt, y) == c;
    assert PixelRow(r, y) == r.ySize;
  }

  // ---------------------------------------------------------------------------------------------
  // SampleWindow

  /** How `SampleWindow` reduces the valid cells of a window: the keys of its `agg_lut`. */
  datatype Aggregation = Mean | Sum | Min | Max

  /** The `agg_lut` key of each aggregation. */
  function AggregationName(a: Aggregation): string {
    match a
    case Mean => "mean"
    case Sum => "sum"
    case Min => "min"
    case Max => "max"
  }

  /** `agg_lut[agg]`: the aggregation an `agg` name selects, None for a name that is not a key. */
  function AggregationNamed(name: string): (a: Option<Aggregation>)
    ensures a.Some? ==> AggregationName(a.value) == name
  {
    if name == AggregationName(Mean) then Some(Mean)
    else if name == AggregationName(Sum) then Some(Sum)
    else if name == AggregationName(Min) then Some(Min)
    else if name == AggregationName(Max) then Some(Max)
    else None
  }

  /** Every aggregation is selected by its own key, so the names are the four keys exactly. */
  lemma AggregationNameRoundTrip(a: Aggregation)
    ensures AggregationNamed(AggregationName(a)) == Some(a)
  {
    assert AggregationName(Mean)[1] == 'e' && AggregationName(Min)[1] == 'i';
    assert AggregationName(Max)[1] == 'a' && |AggregationName(Sum)| == 3;
  }

  /** Row and column bounds of a window, half-open as numpy slices them. */
  datatype Window = Window(ymin: int, ymax: int, xmin: int, xmax: int)

  /** `window_bounds`: the slice bounds of a window of `ySize` by `xSize` pixels centred on (py, px). */
  function WindowBounds(ySize: int, xSize: int, py: int, px: int): (b: Window)
    requires ySize >= 1 && xSize >= 1
    ensures b.ymax - b.ymin == 2 * (ySize / 2) + 1 && b.xmax - b.xmin == 2 * (xSize / 2) + 1
    ensures ySize % 2 == 1 ==> b.ymax - b.ymin == ySize
    ensures xSize % 2 == 1 ==> b.xmax - b.xmin == xSize
    ensures py - b.ymin == b.ymax - 1 - py && px - b.xmin == b.xmax - 1 - px
  {
    var yStep := ySize / 2;
    var xStep := xSize / 2;
    Window(py - yStep, py + yStep + 1, px - xStep, px + xStep + 1)
  }

  /** The window lies within the raster, so slicing it takes exactly its cells. */
  predicate Inside(r: Raster, b: Window) {
    0 <= b.ymin <= b.ymax <= r.ySize && 0 <= b.xmin <= b.xmax <= r.xSize
  }

  /** The window's cells, row by row: `Array[ymin:ymax, xmin:xmax]` flattened. */
  function WindowCells(r: Raster, b: Window): seq<real>
    requires r.Valid() && Inside(r, b)
    decreases b.ymax - b.ymin
  {
    if b.ymin == b.ymax then []
    else WindowCells(r, b.(ymax := b.ymax - 1)) + r.grid[b.ymax - 1][b.xmin..b.xmax]
  }

  /** Every cell of the window occurs in `WindowCells`. */
  lemma {:induction false} WindowCellsContains(r: Raster, b: Window, i: int, j: int)
    requires r.Valid() && Inside(r, b)
    requires b.ymin <= i < b.ymax && b.xmin <= j < b.xmax
    ensures r.grid[i][j] in WindowCells(r, b)
    decreases b.ymax - b.ymin
  {
    if i == b.ymax - 1 {
      assert r.grid[i][b.xmin..b.xmax][j - b.xmin] == r.grid[i][j];
    } else {
      WindowCellsContains(r, b.(ymax := b.ymax - 1), i, j);
    }
  }

  /** The cells with the no-data marker removed (numpy turns them into NaN and skips them). */
  function ValidCells(cells: seq<real>): (valid: seq<real>)
    ensures forall i :: 0 <= i < |valid| ==> valid[i] != WindowNoData
    ensures |valid| <= |cells|
  {
    if cells == [] then []
    else
      var rest := ValidCells(cells[1..]);
      if cells[0] == WindowNoData then rest else [cells[0]] + rest
  }

  /** A value is a valid cell exactly when it is a cell other than the marker. */
  lemma {:induction false} ValidCellsMembers(cells: seq<real>, v: real)
    ensures v in ValidCells(cells) <==> v in cells && v != WindowNoData
  {
    if cells != [] {
      ValidCellsMembers(cells[1..], v);
      assert v in cells <==> v == cells[0] || v in cells[1..];
    }
  }

  /** A window free of the marker keeps all its cells, so the statistic is the plain one. */
  lemma {:induction false} ValidCellsNoMarker(cells: seq<real>)
    requires forall i :: 0 <= i < |cells| ==> cells[i] != WindowNoData
    ensures ValidCells(cells) == cells
  {
    if cells != [] {
      ValidCellsNoMarker(cells[1..]);
      assert cells == [cells[0]] + cells[1..];
    }
  }

  /** No-data cells are dropped, not counted as zeros: they change neither the valid cells nor their count. */
  lemma {:induction false} ValidCellsIgnoresMarker(a: seq<real>, b: seq<real>)
    ensures ValidCells(a + [WindowNoData] + b) == ValidCells(a + b)
  {
    if a == [] {
      assert a + [WindowNoData] + b == [WindowNoData] + b;
      assert ([WindowNoData] + b)[1..] == b;
      assert a + b == b;
    } else {
      ValidCellsIgnoresMarker(a[1..], b);
      assert (a + [WindowNoData] + b)[1..] == a[1..] + [WindowNoData] + b;
      assert (a + b)[1..] == a[1..] + b;
    }
  }

  /** The statistic `agg_lut[agg]` over the valid cells (numpy's nanmean, nansum, nanmin, nanmax). */
  function Aggregate(agg: Aggregation, valid: seq<real>): real
    requires |valid| > 0
  {
    match agg
    case Mean => N.Mean(valid)
    case Sum => N.Sum(valid)
    case Min => N.MinOf(valid)
    case Max => N.MaxOf(valid)
  }

  /** Mean, min and max lie between the smallest and largest valid cell; min and max are attained. */
  lemma AggregateWithinValidRange(agg: Aggregation, valid: seq<real>)
    requires |valid| > 0
    requires agg != Sum
    ensures N.MinOf(valid) <= Aggregate(agg, valid) <= N.MaxOf(valid)
    ensures agg != Mean ==> Aggregate(agg, valid) in valid
  {
    if agg == Mean {
      N.MeanBetweenMinAndMax(valid);
    }
  }

  /** A window with exactly one valid cell yields that cell's value under every aggregation. */
  lemma AggregateSingleCell(agg: Aggregation, v: real)
    ensures Aggregate(agg, [v]) == v
  {
    assert [v][..0] == [];
    assert N.Sum([v]) == N.Sum([]) + v;
  }

  /** How `SampleWindow` ends. */
  datatype WindowResult =
    | Aggregated(value: real)  // a window held at least one valid cell
    | NoValidData              // the source's -9999: all no-data and growing switched off
    | ReachesEdge              // the window would extend past the raster (not followed by this model)
    | UnknownAggregation       // `agg_lut[agg]` raised KeyError: `agg` is none of its keys

  /** The window of the given size centred on (py, px) is inside the raster and holds no valid cell. */
  predicate Barren(r: Raster, py: int, px: int, ySize: int, xSize: int)
    requires r.Valid() && ySize >= 1 && xSize >= 1
  {
    var b := WindowBounds(ySize, xSize, py, px);
    Inside(r, b) && |ValidCells(WindowCells(r, b))| == 0
  }

  /** What one window shows: it reaches past the raster, it is all no-data, or its statistic. */
  datatype Look = OffRaster | Blank | Hit(value: real)

  /** The window of `ySize` by `xSize` pixels centred on (py, px), as one pass of the loop sees it. */
  function LookAt(r: Raster, py: int, px: int, ySize: int, xSize: int, agg: Aggregation): Look
    requires r.Valid() && ySize >= 1 && xSize >= 1
  {
    var b := WindowBounds(ySize, xSize, py, px);
    if !Inside(r, b) then OffRaster
    else
      var valid := ValidCells(WindowCells(r, b));
      if |valid| > 0 then Hit(Aggregate(agg, valid)) else Blank
  }

  /** The windows the loop visits: pass k sees the window grown by 2k pixels in each direction. */
  function Looks(r: Raster, py: int, px: int, ySize: int, xSize: int, agg: Aggregation): nat -> Look
    requires r.Valid() && ySize >= 1 && xSize >= 1
  {
    (k: nat) => LookAt(r, py, px, ySize + 2 * k, xSize + 2 * k, agg)
  }

  /** From pass r.ySize + 1 on the window is taller than the raster. */
  lemma LooksLeaveRaster(r: Raster, py: int, px: int, ySize: int, xSize: int, agg: Aggregation)
    requires r.Valid() && ySize >= 1 && xSize >= 1
    ensures forall k: nat :: r.ySize + 1 <= k ==> Looks(r, py, px, ySize, xSize, agg)(k) == OffRaster
  {
    forall k: nat | r.ySize + 1 <= k
      ensures Looks(r, py, px, ySize, xSize, agg)(k) == OffRaster
    {
      var y := ySize + 2 * k;
      var b := WindowBounds(y, xSize + 2 * k, py, px);
      assert b.ymax - b.ymin == 2 * (y / 2) + 1;
      assert !Inside(r, b);
    }
  }

  /** The `while growing` loop from pass k on, over any sequence of looks that leaves the raster by
      pass `bound`: a hit ends it with the statistic, an all-no-data window either ends it with
      -9999 or, when growing, passes on to the next window. The loop itself never raises KeyError. */
  function Search(looks: nat -> Look, bound: nat, k: nat, grow: bool): (o: WindowResult)
    requires forall j: nat :: bound <= j ==> looks(j) == OffRaster
    ensures o != UnknownAggregation
    decreases bound - k
  {
    match looks(k)
    case OffRaster => ReachesEdge
    case Hit(v) => Aggregated(v)
    case Blank => if grow then Search(looks, bound, k + 1, grow) else NoValidData
  }

  /** One pass of the loop: what the look at pass k decides about the search from pass k on. */
  lemma SearchStep(looks: nat -> Look, bound: nat, k: nat, grow: bool)
    requires forall j: nat :: bound <= j ==> looks(j) == OffRaster
    ensures looks(k) == OffRaster ==> Search(looks, bound, k, grow) == ReachesEdge
    ensures looks(k).Hit? ==> Search(looks, bound, k, grow) == Aggregated(looks(k).value)
    ensures looks(k) == Blank && !grow ==> Search(looks, bound, k, grow) == NoValidData
    ensures looks(k) == Blank && grow ==> k < bound && Search(looks, bound, k, grow) == Search(looks, bound, k + 1, grow)
  {
  }

  /** -9999 comes only from the no-growth branch, on an all-no-data window. */
  lemma {:induction false} SearchNoValidData(looks: nat -> Look, bound: nat, k: nat, grow: bool)
    requires forall j: nat :: bound <= j ==> looks(j) == OffRaster
    requires Search(looks, bound, k, grow) == NoValidData
    ensures !grow && looks(k) == Blank
    decreases bound - k
  {
    if looks(k) == Blank && grow {
      SearchNoValidData(looks, bound, k + 1, grow);
    }
  }

  /** A statistic comes from the first window from pass k on that holds a valid cell; every window
      before it was all no-data, and without growing it is the first one. */
  lemma {:induction false} SearchFindsFirstHit(looks: nat -> Look, bound: nat, k: nat, grow: bool)
    returns (h: nat)
    requires forall j: nat :: bound <= j ==> looks(j) == OffRaster
    requires Search(looks, bound, k, grow).Aggregated?
    ensures k <= h && (grow || h == k)
    ensures forall j :: k <= j < h ==> looks(j) == Blank
    ensures looks(h) == Hit(Search(looks, bound, k, grow).value)
    decreases bound - k
  {
    if looks(k) == Blank {
      h := SearchFindsFirstHit(looks, bound, k + 1, grow);
    } else {
      h := k;
    }
  }

  /** The value of the `while growing` loop started with a window of `ySize` by `xSize` pixels. */
  function WindowOutcome(r: Raster, py: int, px: int, ySize: int, xSize: int, agg: Aggregation, grow: bool): WindowResult
    requires r.Valid() && ySize >= 1 && xSize >= 1
  {
    LooksLeaveRaster(r, py, px, ySize, xSize, agg);
    Search(Looks(r, py, px, ySize, xSize, agg), r.ySize + 1, 0, grow)
  }

  /** The loop's result when the `agg` name may not be a key: the KeyError is raised at the first
      window holding a valid cell, so the loop runs as for any aggregation and only a statistic
      turns into the error. */
  function RaisedOnHit(known: bool, o: WindowResult): WindowResult {
    if !known && o.Aggregated? then UnknownAggregation else o
  }

  /** The value of `SampleWindow` with the aggregation given by name. */
  function NamedWindowOutcome(r: Raster, py: int, px: int, ySize: int, xSize: int, agg: string, grow: bool): WindowResult
    requires r.Valid() && ySize >= 1 && xSize >= 1
  {
    var a := AggregationNamed(agg);
    RaisedOnHit(a.Some?, WindowOutcome(r, py, px, ySize, xSize, if a.Some? then a.value else Mean, grow))
  }

  /** `SampleWindow(center_point, window_size, agg, grow_window, max_grow)`. `max_grow` is accepted and
      never read, as in the source. */
  method SampleWindow(r: Raster, center: PointYX, windowSize: (int, int), agg: string,
                      growWindow: bool, maxGrow: int) returns (res: WindowResult)
    requires r.Valid() && Invertible(r.geotransform)
    requires windowSize.0 >= 1 && windowSize.1 >= 1
    ensures res == NamedWindowOutcome(r, PixelRow(r, center.y), PixelColumn(r, center.x),
                                      windowSize.0, windowSize.1, agg, growWindow)
  {
    var py := PixelRow(r, center.y);
    var px := PixelColumn(r, center.x);
    var ySize, xSize := windowSize.0, windowSize.1;
    var named := AggregationNamed(agg);
    var how := if named.Some? then named.value else Mean;
    ghost var looks := Looks(r, py, px, windowSize.0, windowSize.1, how);
    ghost var bound := r.ySize + 1;
    LooksLeaveRaster(r, py, px, windowSize.0, windowSize.1, how);
    ghost var outcome := Search(looks, bound, 0, growWindow);
    ghost var k: nat := 0;
    res := NoValidData;
    var growing := true;
    while growing
      invariant ySize == windowSize.0 + 2 * k && xSize == windowSize.1 + 2 * k
      invariant growing ==> Search(looks, bound, k, growWindow) == outcome
      invariant !growing ==> res == RaisedOnHit(named.Some?, outcome)
      decreases growing, bound - k
    {
      var look := LookPass(r, py, px, windowSize.0, windowSize.1, how, k, ySize, xSize);
      SearchStep(looks, bound, k, growWindow);
      match look
      case OffRaster =>
        res := ReachesEdge;
        growing := false;
      case Hit(v) =>
        res := if named.Some? then Aggregated(v) else UnknownAggregation;
        growing := false;
      case Blank =>
        if growWindow {
          ySize, xSize := ySize + 2, xSize + 2;
          k := k + 1;
        } else {
          res := NoValidData;
          growing := false;
        }
    }
  }

  /** One pass of the loop: slice the window grown k times, drop the no-data cells and reduce the rest. */
  method LookPass(r: Raster, py: int, px: int, ySize0: int, xSize0: int, agg: Aggregation,
                  ghost k: nat, ySize: int, xSize: int) returns (look: Look)
    requires r.Valid() && ySize0 >= 1 && xSize0 >= 1
    requires ySize == ySize0 + 2 * k && xSize == xSize0 + 2 * k
    ensures look == Looks(r, py, px, ySize0, xSize0, agg)(k)
  {
    look := LookAt(r, py, px, ySize, xSize, agg);
  }

  /** The aggregation decides only the statistic: which windows are looked at, and whether the loop
      ends with a statistic, -9999 or at the edge, is the same for every aggregation. */
  lemma AggregationOnlyChangesValue(r: Raster, py: int, px: int, ySize: int, xSize: int,
                                    a1: Aggregation, a2: Aggregation, grow: bool)
    requires r.Valid() && ySize >= 1 && xSize >= 1
    ensures var o1 := WindowOutcome(r, py, px, ySize, xSize, a1, grow);
      var o2 := WindowOutcome(r, py, px, ySize, xSize, a2, grow);
      (o1.Aggregated? <==> o2.Aggregated?) && (!o1.Aggregated? ==> o1 == o2)
  {
    var l1, l2 := Looks(r, py, px, ySize, xSize, a1), Looks(r, py, px, ySize, xSize, a2);
    LooksLeaveRaster(r, py, px, ySize, xSize, a1);
    LooksLeaveRaster(r, py, px, ySize, xSize, a2);
    forall j: nat
      ensures (l1(j) == Blank <==> l2(j) == Blank) && (l1(j) == OffRaster <==> l2(j) == OffRaster)
    {
      assert l1(j) == LookAt(r, py, px, ySize + 2 * j, xSize + 2 * j, a1);
      assert l2(j) == LookAt(r, py, px, ySize + 2 * j, xSize + 2 * j, a2);
    }
    SearchIgnoresValues(l1, l2, r.ySize + 1, 0, grow);
  }

  lemma {:induction false} SearchIgnoresValues(l1: nat -> Look, l2: nat -> Look, bound: nat, k: nat, grow: bool)
    requires forall j: nat :: bound <= j ==> l1(j) == OffRaster
    requires forall j: nat :: bound <= j ==> l2(j) == OffRaster
    requires forall j: nat :: (l1(j) == Blank <==> l2(j) == Blank) && (l1(j) == OffRaster <==> l2(j) == OffRaster)
    ensures var o1, o2 := Search(l1, bound, k, grow), Search(l2, bound, k, grow);
      (o1.Aggregated? <==> o2.Aggregated?) && (!o1.Aggregated? ==> o1 == o2)
    decreases bound - k
  {
    if l1(k) == Blank && grow {
      SearchIgnoresValues(l1, l2, bound, k + 1, grow);
    }
  }

  /** A known name gives that aggregation's result. An unknown name raises KeyError exactly when the
      loop reaches a window with a valid cell, and otherwise ends as it would for any aggregation. */
  lemma NamedWindowOutcomeSpec(r: Raster, py: int, px: int, ySize: int, xSize: int, agg: string,
                               a: Aggregation, grow: bool)
    requires r.Valid() && ySize >= 1 && xSize >= 1
    ensures AggregationNamed(agg) == Some(a) ==>
      NamedWindowOutcome(r, py, px, ySize, xSize, agg, grow) == WindowOutcome(r, py, px, ySize, xSize, a, grow)
    ensures AggregationNamed(agg).None? ==>
      var o := WindowOutcome(r, py, px, ySize, xSize, a, grow);
      && (NamedWindowOutcome(r, py, px, ySize, xSize, agg, grow) == UnknownAggregation <==> o.Aggregated?)
      && (!o.Aggregated? ==> NamedWindowOutcome(r, py, px, ySize, xSize, agg, grow) == o)
  {
    AggregationOnlyChangesValue(r, py, px, ySize, xSize, Mean, a, grow);
  }

  /** With growing switched off only the requested window is looked at: its statistic, or -9999. */
  lemma NoGrowthLooksOnce(r: Raster, py: int, px: int, ySize: int, xSize: int, agg: Aggregation)
    requires r.Valid() && ySize >= 1 && xSize >= 1
    requires Inside(r, WindowBounds(ySize, xSize, py, px))
    ensures var valid := ValidCells(WindowCells(r, WindowBounds(ySize, xSize, py, px)));
      WindowOutcome(r, py, px, ySize, xSize, agg, false)
        == if |valid| > 0 then Aggregated(Aggregate(agg, valid)) else NoValidData
  {
    assert Looks(r, py, px, ySize, xSize, agg)(0) == LookAt(r, py, px, ySize, xSize, agg);
  }

  /** The -9999 result only comes from the no-growth branch, on an all-no-data window. */
  lemma NoValidDataOnlyWithoutGrowth(r: Raster, py: int, px: int, ySize: int, xSize: int, agg: Aggregation, grow: bool)
    requires r.Valid() && ySize >= 1 && xSize >= 1
    requires WindowOutcome(r, py, px, ySize, xSize, agg, grow) == NoValidData
    ensures !grow
    ensures Barren(r, py, px, ySize, xSize)
  {
    LooksLeaveRaster(r, py, px, ySize, xSize, agg);
    SearchNoValidData(Looks(r, py, px, ySize, xSize, agg), r.ySize + 1, 0, grow);
    assert Looks(r, py, px, ySize, xSize, agg)(0) == LookAt(r, py, px, ySize, xSize, agg);
  }

  /** The window grown k times by two pixels in each direction is inside the raster and all no-data. */
  predicate BarrenAfter(r: Raster, py: int, px: int, ySize: int, xSize: int, k: nat)
    requires r.Valid() && ySize >= 1 && xSize >= 1
  {
    Barren(r, py, px, ySize + 2 * k, xSize + 2 * k)
  }

  /** A value found after growing comes from the first window, grown k times by two pixels in each
      direction, that holds a valid cell; every smaller window was inside the raster and all no-data,
      and the window stays odd when it started odd. */
  lemma GrowthFindsFirstValidWindow(r: Raster, py: int, px: int, ySize: int, xSize: int, agg: Aggregation, grow: bool)
    returns (k: nat)
    requires r.Valid() && ySize >= 1 && xSize >= 1
    requires WindowOutcome(r, py, px, ySize, xSize, agg, grow).Aggregated?
    ensures grow || k == 0
    ensures forall j :: 0 <= j < k ==> BarrenAfter(r, py, px, ySize, xSize, j)
    ensures FoundIn(r, py, px, ySize + 2 * k, xSize + 2 * k, agg, WindowOutcome(r, py, px, ySize, xSize, agg, grow))
    ensures ySize % 2 == 1 ==> (ySize + 2 * k) % 2 == 1
  {
    var looks := Looks(r, py, px, ySize, xSize, agg);
    LooksLeaveRaster(r, py, px, ySize, xSize, agg);
    k := SearchFindsFirstHit(looks, r.ySize + 1, 0, grow);
    BlankLooksAreBarren(r, py, px, ySize, xSize, agg, k);
    HitLookIsFound(r, py, px, ySize, xSize, agg, k, WindowOutcome(r, py, px, ySize, xSize, agg, grow).value);
    GrowingKeepsParity(ySize, k);
  }

  /** When growing, the search reaches the first Hit that follows only Blank looks. */
  lemma {:induction false} SearchReachesHit(looks: nat -> Look, bound: nat, k: nat, h: nat)
    requires forall j: nat :: bound <= j ==> looks(j) == OffRaster
    requires k <= h && looks(h).Hit?
    requires forall j :: k <= j < h ==> looks(j) == Blank
    ensures Search(looks, bound, k, true) == Aggregated(looks(h).value)
    decreases h - k
  {
    if k < h {
      SearchReachesHit(looks, bound, k + 1, h);
    }
  }

  /** The converse of `GrowthFindsFirstValidWindow`: when growing, if the window grown k times is
      inside the raster and holds a valid cell, and every smaller window was inside and all no-data,
      the loop returns that window's statistic. */
  lemma GrowthReachesFirstValidWindow(r: Raster, py: int, px: int, ySize: int, xSize: int, agg: Aggregation, k: nat)
    requires r.Valid() && ySize >= 1 && xSize >= 1
    requires forall j :: 0 <= j < k ==> BarrenAfter(r, py, px, ySize, xSize, j)
    requires Inside(r, WindowBounds(ySize + 2 * k, xSize + 2 * k, py, px))
    requires |ValidCells(WindowCells(r, WindowBounds(ySize + 2 * k, xSize + 2 * k, py, px)))| > 0
    ensures FoundIn(r, py, px, ySize + 2 * k, xSize + 2 * k, agg, WindowOutcome(r, py, px, ySize, xSize, agg, true))
  {
    var looks := Looks(r, py, px, ySize, xSize, agg);
    LooksLeaveRaster(r, py, px, ySize, xSize, agg);
    BarrenLooksAreBlank(r, py, px, ySize, xSize, agg, k);
    assert looks(k) == LookAt(r, py, px, ySize + 2 * k, xSize + 2 * k, agg);
    SearchReachesHit(looks, r.ySize + 1, 0, k);
  }

  lemma BarrenLooksAreBlank(r: Raster, py: int, px: int, ySize: int, xSize: int, agg: Aggregation, k: nat)
    requires r.Valid() && ySize >= 1 && xSize >= 1
    requires forall j :: 0 <= j < k ==> BarrenAfter(r, py, px, ySize, xSize, j)
    ensures forall j :: 0 <= j < k ==> Looks(r, py, px, ySize, xSize, agg)(j) == Blank
  {
    forall j | 0 <= j < k
      ensures Looks(r, py, px, ySize, xSize, agg)(j) == Blank
    {
      assert BarrenAfter(r, py, px, ySize, xSize, j);
      assert Barren(r, py, px, ySize + 2 * j, xSize + 2 * j);
      assert Looks(r, py, px, ySize, xSize, agg)(j) == LookAt(r, py, px, ySize + 2 * j, xSize + 2 * j, agg);
    }
  }

  lemma BlankLooksAreBarren(r: Raster, py: int, px: int, ySize: int, xSize: int, agg: Aggregation, k: nat)
    requires r.Valid() && ySize >= 1 && xSize >= 1
    requires forall j :: 0 <= j < k ==> Looks(r, py, px, ySize, xSize, agg)(j) == Blank
    ensures forall j :: 0 <= j < k ==> BarrenAfter(r, py, px, ySize, xSize, j)
  {
    forall j | 0 <= j < k
      ensures BarrenAfter(r, py, px, ySize, xSize, j)
    {
      assert Looks(r, py, px, ySize, xSize, agg)(j) == Blank;
    }
  }

  lemma HitLookIsFound(r: Raster, py: int, px: int, ySize: int, xSize: int, agg: Aggregation, k: nat, v: real)
    requires r.Valid() && ySize >= 1 && xSize >= 1
    requires Looks(r, py, px, ySize, xSize, agg)(k) == Hit(v)
    ensures FoundIn(r, py, px, ySize + 2 * k, xSize + 2 * k, agg, Aggregated(v))
  {
    assert Looks(r, py, px, ySize, xSize, agg)(k) == LookAt(r, py, px, ySize + 2 * k, xSize + 2 * k, agg);
  }

  lemma GrowingKeepsParity(size: int, k: nat)
    ensures (size + 2 * k) % 2 == size % 2
  {
  }

  /** The window of the given size is inside the raster, holds a valid cell, and `res` is its statistic. */
  predicate FoundIn(r: Raster, py: int, px: int, ySize: int, xSize: int, agg: Aggregation, res: WindowResult)
    requires r.Valid() && ySize >= 1 && xSize >= 1
  {
    var b := WindowBounds(ySize, xSize, py, px);
    && Inside(r, b)
    && var valid := ValidCells(WindowCells(r, b));
    && |valid| > 0
    && res == Aggregated(Aggregate(agg, valid))
  }

  /** With 'min' or 'max' the result is at most, or at least, every valid cell of the window it came from. */
  lemma MinMaxBoundValidCells(r: Raster, b: Window, agg: Aggregation, i: int, j: int)
    requires r.Valid() && Inside(r, b)
    requires |ValidCells(WindowCells(r, b))| > 0
    requires b.ymin <= i < b.ymax && b.xmin <= j < b.xmax && r.grid[i][j] != WindowNoData
    ensures var valid := ValidCells(WindowCells(r, b));
      && (agg == Min ==> Aggregate(agg, valid) <= r.grid[i][j])
      && (agg == Max ==> r.grid[i][j] <= Aggregate(agg, valid))
  {
    WindowCellsContains(r, b, i, j);
    ValidCellsMembers(WindowCells(r, b), r.grid[i][j]);
  }
}
