# DEM comparison and selection tools, modelled in Dafny

This project models the computational core of a set of scripts for working with digital elevation
models (DEMs):

- `RasterWrapper.Raster`: a decoded single-band raster. `SamplePoint` reads the value under a
  geocoordinate. `SampleWindow` aggregates a window of pixels around a point, skipping the `-9999`
  no-data marker, and can grow the window until it holds a valid value.
- Raster extents and the minimum bounding box of several rasters. This code appears twice, in
  `clip2min_bb.py` and `RMSE_array_2.py`, and is defined once here (`Extent`).
- `clip2min_bb.py`: collecting the DEMs to clip, naming the clipped outputs, and the ring of the
  bounding-box shapefile.
- RMSE between two DEMs:
  - `RMSE_array_2.py` samples both DEMs at random points inside their shared box.
  - `RMSE_points.py` samples them at random points inside two footprints, using truncating pixel
    indices, and also has a `normalize` helper.
- `select_max_overlap_DEMs.py`: choosing the n DEM pairs that overlap most and writing their path
  files.
- `select_dems_.py`: the sensor, stereo-type, ICESat and multispectral filters, the spatial join
  and the de-duplication on the DEM id.
- `arcpy_diff.py`: which two DEMs of a pair directory are differenced, in which order, and under
  which name.

Each source file becomes one module. Shared helper modules give Python, numpy and pandas semantics
their own definitions:

- `Base`: Option and Result.
- `Strings`: suffix tests, slices and code-point string order.
- `Paths`: posixpath `join`, `split`, `basename` and `dirname`.
- `Numeric`: max, min, sum, mean and the affine map behind `random.uniform`.
- `Frames`: filter, `drop_duplicates`, Python slicing, map and flat-map, and accepting candidates
  from a stream.
- `Sorting`: a stable sort by key, proved to be a sorted permutation that keeps ties in order.
- `Geo`: the geotransform, numpy's half-to-even rounding and `int()` truncation.

Number and I/O choices:

- Numbers are `real`; integers are unbounded.
- Randomness is an input: a finite sequence of unit fractions, one per `random.uniform` call.
- File-system listings, raster reads and spatial predicates are parameters (functions in the
  model's signatures).

The source's loops are Dafny methods with loop invariants. Each method is proved equal to a
specification function, and the properties are proved as lemmas about those functions:

- `minimum_bounding_box`;
- `matching_files` and `parse_src`;
- the `while` loops of `SampleWindow`, `sample_random_points` and `random_points_within`;
- the `sample_points` and `normalize` loops;
- the pair-file writing and `iterrows` loops;
- the filter chain of `select_dems_`;
- `order_by_date`'s in-place sort.

Errors are modelled where the code raises them and nowhere else:

- The code has no error for an empty intersection of extents: a disjoint set of extents yields an
  inverted box (`Extent.DisjointInputsInvertBox`).
- The random-sampling loops have no attempt bound in the code; the model's only bound is the finite
  length of the draw stream.
- A window leaving the raster is reported as `ReachesEdge`, a model-only outcome (see "Left out").

## Model

| member | source | states |
|---|---|---|
| RasterWrapper.NumpyIndex | RasterWrapper.py:103-108 | An integer index into an axis of length n is accepted exactly when -n <= i < n; a negative one counts from the end; anything else is the IndexError (None). |
| RasterWrapper.SamplePoint | RasterWrapper.py:93-109 | The point is read as (y, x). Rows and columns are the half-to-even rounded pixel coordinates. The result is present exactly when both indices are in numpy's accepted range. For an in-raster pixel it is `Array[py, px]`; a negative index wraps from the end. |
| RasterWrapper.SamplePointAtPixelCorner | RasterWrapper.py:99-104 | Sampling at the geocoordinate of a pixel's upper-left corner returns that pixel's cell. |
| RasterWrapper.SamplePointPastFarEdge | RasterWrapper.py:100-108 | A point whose rounded row or column is at or past the raster's size gives None instead of raising. |
| RasterWrapper.SamplePointLastRowCentre | RasterWrapper.py:100-101 | Rounding is not flooring. On a north-up raster with an even number of rows, the centre of a last-row pixel rounds (half to even) past the edge, so sampling there gives None. |
| RasterWrapper.WindowBounds | RasterWrapper.py:126-147 | The half-open bounds span 2*(s/2)+1 rows and columns, exactly s for an odd size s, and are centred on the pixel. |
| RasterWrapper.WindowCellsContains | RasterWrapper.py:159 | Every cell of the slice `Array[ymin:ymax, xmin:xmax]` is among the window's cells. |
| RasterWrapper.ValidCells | RasterWrapper.py:160-166 | The valid cells contain no `-9999.0` marker and are no more than the window's cells. |
| RasterWrapper.ValidCellsMembers | RasterWrapper.py:160-166 | A value is valid exactly when it is in the window and is not the hard-coded -9999.0 (the raster's own no-data value plays no part). |
| RasterWrapper.ValidCellsNoMarker | RasterWrapper.py:160 | A window without the marker keeps all its cells. |
| RasterWrapper.ValidCellsIgnoresMarker | RasterWrapper.py:160-172 | A marker cell is neither a zero nor counted: removing it changes nothing the aggregation sees. |
| RasterWrapper.AggregateWithinValidRange | RasterWrapper.py:168-174 | Mean, min and max of the valid cells lie between the smallest and largest valid cell; min and max are valid cells. |
| RasterWrapper.AggregateSingleCell | RasterWrapper.py:168-174 | With one valid cell every aggregation returns that cell. |
| RasterWrapper.MinMaxBoundValidCells | RasterWrapper.py:171-172 | 'min' is at most, and 'max' at least, every valid cell of the window. |
| RasterWrapper.LooksLeaveRaster | RasterWrapper.py:182-183 | Growing by two pixels a pass, the window is taller than the raster after ySize+1 passes, so the model's growth loop, which stops at the raster's edge, always ends. |
| RasterWrapper.SearchNoValidData | RasterWrapper.py:184-187 | The loop ends with -9999 only when growing is off and the first window is all no-data. |
| RasterWrapper.SearchFindsFirstHit | RasterWrapper.py:156-183 | A statistic comes from the first window holding a valid cell, and every earlier window was all no-data. Without growing it is the first window. |
| RasterWrapper.SampleWindow | RasterWrapper.py:112-195 | The `while growing` loop with the window size, `growing` and the result as its state. It returns what the window search defines for the rounded centre pixel, with `agg` looked up by name. `max_grow` is accepted and never read. |
| RasterWrapper.AggregationNamed | RasterWrapper.py:168-174 | A name that selects an aggregation is that aggregation's `agg_lut` key. |
| RasterWrapper.AggregationNameRoundTrip | RasterWrapper.py:168-174 | Each of 'mean', 'sum', 'min' and 'max' selects its own aggregation. |
| RasterWrapper.Search | RasterWrapper.py:156-187 | The loop itself never raises the KeyError; only the name lookup does. |
| RasterWrapper.AggregationOnlyChangesValue | RasterWrapper.py:158-187 | The aggregation decides only the statistic: whether the loop ends with a statistic, with -9999 or at the edge is the same for every aggregation. |
| RasterWrapper.SearchIgnoresValues | RasterWrapper.py:156-187 | Two sequences of windows that are all no-data, and leave the raster, at the same passes end the loop the same way. |
| RasterWrapper.NamedWindowOutcomeSpec | RasterWrapper.py:168-174 | A known `agg` name gives that aggregation's result. An unknown name raises KeyError exactly when the loop reaches a window with a valid cell, and otherwise ends as for any aggregation. |
| RasterWrapper.NoGrowthLooksOnce | RasterWrapper.py:184-187 | Without growth, a window inside the raster gives its statistic when it has a valid cell and -9999 otherwise. |
| RasterWrapper.NoValidDataOnlyWithoutGrowth | RasterWrapper.py:182-187 | -9999 is returned only when `grow_window` is False and the starting window is inside the raster and all no-data. |
| RasterWrapper.GrowthFindsFirstValidWindow | RasterWrapper.py:156-188 | A found value is the statistic of the window grown k times by (2, 2), the first one with a valid cell. Every smaller window was inside the raster and all no-data, k is 0 when not growing, and an odd window stays odd. |
| RasterWrapper.SearchReachesHit | RasterWrapper.py:156-188 | When growing, a run of all-no-data windows followed by one holding a valid cell ends the loop with that window's statistic. |
| RasterWrapper.GrowthReachesFirstValidWindow | RasterWrapper.py:119-120 | With growing on, if the window grown k times is inside the raster and holds a valid cell and every smaller window was inside and all no-data, the result is that window's statistic: the window grows until a valid value is included. |
| RasterWrapper.BlankLooksAreBarren | RasterWrapper.py:179-183 | Every pass that grew the window saw a window inside the raster and all no-data. |
| RasterWrapper.HitLookIsFound | RasterWrapper.py:166-177 | The pass that stops the loop supplies the statistic of its own window. |
| Geo.RoundHalfEven | RasterWrapper.py:100-101 | numpy's `around`: within one half of the value, and even on a tie. |
| Geo.TruncTowardZero | RMSE_points.py:129-133 | Python's `int()` of a float: the integer part, toward zero for negative values. |
| Geo.PixelGeoRoundTrip | RasterWrapper.py:100-101 | Converting a pixel's corner to geocoordinates and back gives the pixel again, under both rounding and truncation. |
| Geo.TruncationIsNotRounding | RMSE_points.py:129-133 | Truncation differs from the rounding `SamplePoint` uses (0.7 gives 0 against 1), and from flooring for negatives; ties round to even. |
| Extent.RasterBounds | RMSE_array_2.py:10-21 | The extent is (ulx, lry, lrx, uly) = (gt[0], gt[3]+gt[5]*y_sz, gt[0]+gt[1]*x_sz, gt[3]); on a north-up raster ulx <= lrx and lry <= uly. |
| Extent.RasterBoundsCorners | clip2min_bb.py:58-69 | The extent's corners map back to pixel (0, 0) and pixel (x_sz, y_sz). |
| Extent.MinimumBoundingBoxOf | clip2min_bb.py:92-99 | The box `[ulx, uly, lrx, lry]` has ulx and lry at least every input's and uly and lrx at most every input's. Each of its values is some input's value (max/min are attained). |
| Extent.MinimumBoundingBox | RMSE_array_2.py:24-48 | The append loop over the rasters followed by max/min gives the box of their extents. |
| Extent.MinimumBoundingBoxIsIntersection | clip2min_bb.py:91-97 | A point is in the box exactly when it is in every input's extent. |
| Extent.MinimumBoundingBoxSameInputs | clip2min_bb.py:92-95 | Two input lists with the same members, however ordered or repeated, give the same box. |
| Extent.MinimumBoundingBoxPermutation | RMSE_array_2.py:33-46 | Any reordering of the inputs gives the same box. |
| Extent.MinimumBoundingBoxSingle | RMSE_array_2.py:33-46 | One raster's box is its own extent reordered to [ulx, uly, lrx, lry]. |
| Extent.DisjointInputsInvertBox | clip2min_bb.py:92-99 | Disjoint inputs raise nothing: the box comes out inverted (lrx < ulx or uly < lry). |
| Numeric.MaxOf | clip2min_bb.py:92 | `max` of a non-empty list is an element and bounds every element. |
| Numeric.MinOf | clip2min_bb.py:93 | `min` of a non-empty list is an element and is bounded by every element. |
| Numeric.MeanBetweenMinAndMax | RasterWrapper.py:169 | The mean lies between the least and the greatest value. |
| Numeric.MaxMinSameElements | clip2min_bb.py:92-95 | max and min depend only on which values occur. |
| Numeric.SumZeroIffAllZero | RMSE_array_2.py:58 | A sum of non-negative terms is zero exactly when every term is. |
| Numeric.Uniform | RMSE_array_2.py:76 | `random.uniform(a, b)` at a unit fraction lies between a and b, whichever is larger, and gives a at 0. |
| RmseArray.Diffs | RMSE_array_2.py:56 | `zip` pairs elements up to the shorter list, and each entry is x - y. |
| RmseArray.Squares | RMSE_array_2.py:57 | Each entry is the square of the difference, so none is negative. |
| RmseArray.MeanSquaredDifferenceNonNegative | RMSE_array_2.py:51-61 | The squared RMSE is never negative. |
| RmseArray.MeanSquaredDifferenceZeroIff | RMSE_array_2.py:56-58 | The squared RMSE is zero exactly when every paired squared difference is zero. |
| RmseArray.MeanSquaredDifferenceZeroWhenEqual | RMSE_array_2.py:56-58 | Lists that agree on every zipped position have RMSE 0. |
| RmseArray.MeanSquaredDifferenceSelf | RMSE_array_2.py:51-61 | calc_rmse(a, a) == 0. |
| RmseArray.MeanSquaredDifferenceSymmetric | RMSE_array_2.py:51-61 | calc_rmse(a, b) == calc_rmse(b, a). |
| RmseArray.MeanSquaredDifferenceZipTruncates | RMSE_array_2.py:56 | Elements past the shorter list's length play no part. |
| RmseArray.CandidateInBox | RMSE_array_2.py:71-76 | The projWin is unpacked as minx, miny, maxx, maxy, so the drawn y lies between uly and lry and x between ulx and lrx, whichever way round. |
| RmseArray.Accept | RMSE_array_2.py:77-80 | A kept pair has both values present and different from their raster's no-data value. |
| RmseArray.SampleRandomPoints | RMSE_array_2.py:64-84 | The loop only appends. Its result is the first n pairs the draws yield (exactly n), or all of them when the draws run out first. |
| RmseArray.KeptPairsValid | RMSE_array_2.py:79-80 | Every kept pair is the two rasters' samples at one drawn point, and neither value is the no-data value or None. |
| RmseArray.KeptPairsOfSameRaster | RMSE_array_2.py:77-78 | Sampling a DEM against itself keeps pairs of equal values. |
| RmseArray.Firsts | RMSE_array_2.py:98 | `zip(*pairs)`: the first components, in order. |
| RmseArray.Seconds | RMSE_array_2.py:98 | `zip(*pairs)`: the second components, in order. |
| RmseArray.DemRmse | RMSE_array_2.py:88-100 | For n <= 0 the unpacking of no pairs fails. Otherwise the model returns the value `dem_RMSE` prints (the function itself returns None): the squared RMSE of the first n kept pairs: non-negative, and 0 for a DEM against itself. Running out of draws is reported. |
| RmsePoints.DrawBox | RMSE_points.py:76-82 | The draw box takes the larger minimum and the smaller maximum on each axis. |
| RmsePoints.DrawBoxIsIntersection | RMSE_points.py:79-82 | A point is in the draw box exactly when it is in both footprints' bounds. |
| RmsePoints.CandidateInBox | RMSE_points.py:87 | A unit draw lands inside a non-inverted draw box. |
| RmsePoints.AcceptPoint | RMSE_points.py:87-89 | A candidate is kept exactly when it is within both polygons, and it is kept unchanged. |
| RmsePoints.RandomPointsWithin | RMSE_points.py:70-91 | The result is the first num_points accepted candidates, or all of them when the draws run out. |
| RmsePoints.DrawPoint | RMSE_points.py:87-89 | A kept point is within both polygons and, for unit draws and an ordered box, inside the draw box; the drawn point is dropped exactly when it is outside either polygon. |
| RmsePoints.KeptPointsWithinBoth | RMSE_points.py:88-89 | Every returned point is within both polygons and is a candidate drawn in the draw box. |
| RmsePoints.KeptPointsInDrawBox | RMSE_points.py:79-89 | When each footprint lies within its bounds, every returned point lies in the intersection box. |
| RmsePoints.SampleCell | RMSE_points.py:129-137 | With row `int((y-gt[3])/gt[5])` and column `int((x-gt[0])/gt[1])`, truncated toward zero, a value is read exactly when -ySize <= row < ySize and -xSize <= col < xSize, and it is the grid cell there, a negative index counting from the end; otherwise the IndexError. |
| RmsePoints.SamplePoints | RMSE_points.py:121-147 | The table succeeds exactly when both cells exist under every point. It has one entry per point in every column, the point itself, both cell values and diff == v1 - v2, with no no-data filtering. Otherwise the first point whose cell is missing is reported. |
| RmsePoints.CellsUnder | RMSE_points.py:136-144 | One value per point, the cell under it. |
| RmsePoints.RmseOfDifferences | RMSE_points.py:195 | The squared RMSE of the two value columns is the mean of the squared differences of the table's diff column. |
| RmsePoints.Normalize | RMSE_points.py:155-169 | The output has one entry per value, each the linear map sending the list's min to norm_min and max to norm_max. It requires min != max, where the source divides by zero. |
| RmsePoints.RescaleEnds | RMSE_points.py:166 | The minimum maps to norm_min and the maximum to norm_max. |
| RmsePoints.RescaleMonotone | RMSE_points.py:166 | The map preserves order when norm_min <= norm_max. |
| RmsePoints.NormalizeProperties | RMSE_points.py:155-169 | Every normalized value lies in [norm_min, norm_max], order is preserved, and the minimum and maximum map to the ends. |
| RmsePoints.NumPoints | RMSE_points.py:189 | A given, non-zero count is used as is; none (or 0) gives the default of 1000. |
| RmsePoints.PointsRmse | RMSE_points.py:192-196 | The main flow draws the points, samples both DEMs and returns the squared RMSE of the sampled values, which is non-negative. It reports running out of draws, a negative count and a point outside a raster exactly when each happens. |
| ClipMinBB.MatchingFiles | clip2min_bb.py:22-32 | The append loop yields the joined paths of the listed names ending with the suffix. |
| ClipMinBB.MatchingFilesMembers | clip2min_bb.py:28-30 | A path is returned exactly when it is the directory joined with a listed name ending with the suffix, and every returned path ends with the suffix. |
| ClipMinBB.MatchingFilesInListingOrder | clip2min_bb.py:28-30 | The returned paths' names are exactly the matching names, in listing order. |
| ClipMinBB.ParseSrc | clip2min_bb.py:35-55 | The loop over the items yields each item's contribution, in order. |
| ClipMinBB.ParseSrcConcat | clip2min_bb.py:45-53 | Each item contributes independently of the others. |
| ClipMinBB.ParseSrcKeepsFilesAsGiven | clip2min_bb.py:52-53 | Items naming files are returned as given, not absolutised. |
| ClipMinBB.ParseSrcDropsOthers | clip2min_bb.py:45-53 | Items that are neither directories nor files are silently dropped. |
| ClipMinBB.ParseSrcProvenance | clip2min_bb.py:45-55 | Every returned path is a given file item or a suffix-matching file of a given directory. |
| ClipMinBB.TransName | clip2min_bb.py:111 | The output name is the DEM's basename up to its first '.' plus `_trans.tif`, with no directory part. |
| ClipMinBB.OutputPathAsWritten | clip2min_bb.py:108-112 | As written, a missing `-o` is never defaulted, and joining with None fails. |
| ClipMinBB.OutputPathAsWrittenName | clip2min_bb.py:111-112 | When the path is formed, its name is the `_trans.tif` name. |
| ClipMinBB.TranslateDemsAsWritten | clip2min_bb.py:102-115 | As written, the loop fails on its first DEM without `-o`. With `-o` each DEM is clipped to `<out_dir>/<name>_trans.tif`. |
| ClipMinBB.AsWrittenIgnoresDemDirectory | clip2min_bb.py:108-109 | Without `-o` the written code fails, whereas the intended output lies beside the DEM. |
| ClipMinBB.AsWrittenEmptyOutDirIgnoresDemDirectory | clip2min_bb.py:108-112 | With an empty `-o` the written code puts the clip in the current directory, not beside the DEM. |
| ClipMinBB.OutputPathPlacement | clip2min_bb.py:108-112 | Every clip is named after its DEM. Without `-o` it lies in the DEM's directory, with `-o` in that directory. |
| ClipMinBB.OutputPathAgreesWithAsWritten | clip2min_bb.py:108-112 | With a non-empty `-o` the corrected and written paths coincide. |
| ClipMinBB.TranslateDems | clip2min_bb.py:102-115 | Every DEM is clipped to the box and written to its corrected output path, in input order. |
| ClipMinBB.Ring | clip2min_bb.py:156-160 | The ring has four corners, starting at (ulx, lry) with (lrx, uly) opposite it. |
| ClipMinBB.RingTracesBox | clip2min_bb.py:156-160 | Consecutive corners share an edge of the box and lie in it. The signed area is twice the box's area and is non-negative for a non-inverted box, so the ring runs counter-clockwise. |
| ClipMinBB.WriteMinBB | clip2min_bb.py:125-160 | The shapefile is `minimum_bb.shp`, in `-o` or, without it, in the first DEM's directory, and its ring is the box's ring. |
| ClipMinBB.Clip2MinBB | clip2min_bb.py:174-198 | An empty DEM list fails (the `max([])`). Otherwise every DEM is clipped to the minimum bounding box of all, with the corrected output default (see "Findings"), and a shapefile is written exactly when `-w` is given. |
| SelectMaxOverlap.CreatePairIdOrdered | select_max_overlap_DEMs.py:37-41 | The pair id is the smaller id, `__`, the larger id, in string order. |
| SelectMaxOverlap.CreatePairIdSymmetric | select_max_overlap_DEMs.py:37-41 | create_pair_id(a, b) == create_pair_id(b, a). |
| SelectMaxOverlap.FlippedSamePair | select_max_overlap_DEMs.py:65-79 | A row and its flipped twin have the same pair id, overlap and mean count. |
| SelectMaxOverlap.DirName | select_max_overlap_DEMs.py:70 | The name is at most 13 characters of the first id, '-', at most 13 of the second. |
| SelectMaxOverlap.OvlpPerc | select_max_overlap_DEMs.py:77 | The pair's overlap is the average of the two sides' percentages, so it lies between them. |
| SelectMaxOverlap.MeanCount | select_max_overlap_DEMs.py:79 | The mean count is the average of the two sides' point counts, between them. |
| SelectMaxOverlap.SelectPairs | select_max_overlap_DEMs.py:62-84 | Self-pairs are removed, pairs de-duplicated, the rows sorted by descending overlap and sliced `[0:n]`. |
| SelectMaxOverlap.DistinctPairsSpec | select_max_overlap_DEMs.py:62-66 | No self-pair remains, no two rows share a `pair_id` (so no row appears twice or with its flipped twin), every row is an input row, and the rows keep their input order. |
| SelectMaxOverlap.DistinctPairsKeepFirst | select_max_overlap_DEMs.py:65-66 | The first row of each unordered pair is the one kept. |
| SelectMaxOverlap.SortedPrefixDominates | select_max_overlap_DEMs.py:83-84 | In a descending sort every row before the cut overlaps at least as much as every row after it. |
| SelectMaxOverlap.SelectionIsTop | select_max_overlap_DEMs.py:83-84 | For n >= 0 the selection holds min(n, rows) rows taken from the candidates in descending order of overlap, and no unselected row overlaps more than a selected one. |
| SelectMaxOverlap.PrefixIsTop | select_max_overlap_DEMs.py:83-84 | Any prefix of a descending permutation of the rows is sorted, drawn from the rows, and dominates the rest. |
| SelectMaxOverlap.NegativeSelectionDropsTail | select_max_overlap_DEMs.py:84 | A negative n keeps all but the last -n rows, as a Python slice does. |
| SelectMaxOverlap.PairLine | select_max_overlap_DEMs.py:98-103 | Every line ends with ", " and a newline. |
| SelectMaxOverlap.PairLineFields | select_max_overlap_DEMs.py:98-103 | Splitting a line on ',' gives the first path, the second path after a space, and the line end. |
| SelectMaxOverlap.WritePairFiles | select_max_overlap_DEMs.py:87-109 | Each text file holds one line per selected pair, in selection order: the Unix paths joined by '/' and the Windows paths by two backslashes. |
| SelectMaxOverlap.CollectSides | select_max_overlap_DEMs.py:114-133 | The `iterrows` loop fills both dictionaries as the side tables of the selected rows. |
| SelectMaxOverlap.SideTableLastWins | select_max_overlap_DEMs.py:125-133 | A DEM's entry comes from its last row, carrying that row's overlap. |
| SelectMaxOverlap.SideTableKeys | select_max_overlap_DEMs.py:125-133 | The keys are exactly the DEM ids on that side of the selected rows. |
| SelectMaxOverlap.SelectedDems | select_max_overlap_DEMs.py:136-144 | Concatenating both tables and keeping the first of each id gives every DEM of either side once, the left entry winning. |
| SelectMaxOverlap.SelectedDemsAreMembers | select_max_overlap_DEMs.py:125-144 | The DEMs collected are exactly those in some selected pair. |
| SelectMaxOverlap.OutputNames | select_max_overlap_DEMs.py:44-48 | The outputs are `<stem>_pairs.shp`, `<stem>_paths.shp`, `filepath_pairs.txt` and `win_path_pairs.txt`, inside the output directory. |
| SelectMaxOverlap.SelectMaxOvlp | select_max_overlap_DEMs.py:29-148 | The whole flow: output names, selected pairs, both text files and the DEM table. |
| SelectDems.IntrackIffSensorPrefix | select_dems_.py:101-106 | A row is in-track exactly when its pair name starts with IK01, GE01, QB01, WV02 or WV03. |
| SelectDems.MultispectralIsIntrack | select_dems_.py:101-102 | The multispectral sensors are in-track sensors. |
| SelectDems.CountPointsBounds | select_dems_.py:48-74 | The count is at most the number of AOI geometries; it is 0 exactly when none lies within and full exactly when all do. |
| SelectDems.WithCounts | select_dems_.py:139 | Each row gets its own count of AOI geometries within it. |
| SelectDems.SelectSetsmDems | select_dems_.py:110-141 | The table is reassigned filter by filter (each only when its flag asks), joined, de-duplicated, checked for validity, counted and de-duplicated again. |
| SelectDems.SjoinMembers | select_dems_.py:131 | A row survives the join exactly when it intersects some AOI geometry. |
| SelectDems.JoinedRow | select_dems_.py:110-132 | A joined row is an input row that passes the flags and touches the AOI. |
| SelectDems.CountedRow | select_dems_.py:136-139 | A counted row is a joined row with a valid geometry, and its count is its own. |
| SelectDems.SelectedSound | select_dems_.py:110-141 | Every output row is an input row. It is in-track unless xtrack is set. With icesat it is ICESat-registered, by `reg_src` when the column exists and by the strip pair names otherwise. With ms it is WV02/WV03. It touches the AOI, has a valid geometry and carries its count. |
| SelectDems.SelectedDistinct | select_dems_.py:132-141 | No two output rows share a dem_id. |
| SelectDems.SelectedComplete | select_dems_.py:110-141 | With unique ids on input, every row that passes the flags, touches the AOI and is valid is in the output with its count. |
| SelectDems.JoinedHasRow | select_dems_.py:131-132 | With unique ids on input, every passing row that touches the AOI survives the join and the first de-duplication. |
| SelectDems.SameIdSameRow | select_dems_.py:132 | With unique ids, rows sharing an id are the same row. |
| Frames.FilterIsSubsequence | select_dems_.py:110-124 | A filter only removes rows: what remains is an order-preserving subsequence. |
| Frames.FilterMembers | select_dems_.py:110-124 | A row remains exactly when it was present and passes. |
| Frames.DropDuplicatesSpec | select_dems_.py:132 | `drop_duplicates(subset=key)` keeps an order-preserving subsequence with distinct keys, and every key of the input is still present. |
| Frames.DropDuplicatesKeepsFirst | select_max_overlap_DEMs.py:66 | The first row with a given key is kept. |
| Frames.PySlice | select_max_overlap_DEMs.py:84 | Python's `s[lo:hi]` with negative and out-of-range bounds clamped. |
| Frames.CollectUntil | RMSE_array_2.py:75-84 | Stopping once n items are held, or when the draws run out, gives the first n accepted items. |
| Frames.FirstN | RMSE_array_2.py:75 | The loop ends complete exactly when enough items were accepted, with exactly n of them, or exhausted with all of them. |
| Sorting.SortPermutes | arcpy_diff.py:17 | The sorted list is a permutation of the input. |
| Sorting.SortSorted | arcpy_diff.py:17 | Under a total preorder the sorted list is in key order. |
| Sorting.SortStable | arcpy_diff.py:17 | Rows with equal keys keep their input order (list.sort is stable). |
| Sorting.SortTwo | arcpy_diff.py:17 | Two rows are swapped exactly when the second's key is strictly smaller. |
| Strings.StrLeTotal | select_max_overlap_DEMs.py:39 | Code-point string order is total. |
| Strings.StrLeTransitive | select_max_overlap_DEMs.py:39 | Code-point string order is transitive. |
| Strings.StrLeAntisymmetric | select_max_overlap_DEMs.py:39 | Code-point string order is antisymmetric. |
| Strings.BeforeFirstDot | clip2min_bb.py:111 | `s.split('.')[0]`: the longest prefix without a '.'. |
| Strings.Slice | arcpy_diff.py:17 | `s[5:12]` keeps at most 7 characters, those at positions 5 onward. |
| Paths.SplitJoin | arcpy_diff.py:36-37 | `os.path.split` undoes `os.path.join` of a directory and an entry name. |
| Paths.BasenameJoin | clip2min_bb.py:112 | The basename of a joined path is the entry name. |
| Paths.DirnameJoin | clip2min_bb.py:133-134 | Joining a name onto a path's directory keeps that directory. |
| ArcpyDiff.DateKey | arcpy_diff.py:17 | The key is characters 5 to 12 of the file name, at most seven of them. |
| ArcpyDiff.OrderByDate | arcpy_diff.py:16-18 | The list is sorted in place by date key and the same list is returned. |
| ArcpyDiff.ByDateSpec | arcpy_diff.py:16-18 | The sorted list is a permutation in date-key order, and paths with equal keys keep their listing order. |
| ArcpyDiff.ByDateOfTwo | arcpy_diff.py:17 | Two paths come out earlier key first, and in listing order on a tie. |
| ArcpyDiff.ClippedDemsAreConsidered | arcpy_diff.py:27-28 | The clips clip2min_bb writes (`_trans.tif`) pass the DEM suffix filter. |
| ArcpyDiff.DiffPathNames | arcpy_diff.py:36-37 | The output is `<source dir name>_<pair dir name>_diff.tif` inside the pair directory. |
| ArcpyDiff.PairOutcomeSpec | arcpy_diff.py:28-43 | A difference is made exactly when two DEMs match the suffixes, otherwise the count is reported. The difference is the later-dated DEM minus the earlier (listing order on a tie), written to the diff path. |
| ArcpyDiff.DiffPair | arcpy_diff.py:24-43 | Listing a pair path that is not a directory fails, exactly then, naming that path; otherwise the outcome is the pair's listing outcome (two DEMs differenced later minus earlier, or the count reported). |
| ArcpyDiff.DiffAll | arcpy_diff.py:20-43 | A source path that is not a directory fails at once. Otherwise the entries are handled in listing order, one outcome each, and the run stops right after the first entry that cannot be listed; with no such entry every entry has its outcome. |

## Left out

- Raster and vector I/O is replaced by values: `gdal.Open`, `ReadAsArray`, `gdal.Translate`, OGR
  shapefile writing, `gpd.read_file`/`to_file`, text-file writes and arcpy's raster subtraction
  and `save`. A raster is an array, a geotransform, sizes and a no-data value. The files written
  are returned as strings and values.
- `ReadStackedArray` and `WriteArray` in `RasterWrapper.py` are thin GDAL wrappers. They are not
  part of this model.
- The projection, the data type and logging are not modelled.
- Randomness is a finite stream of unit fractions. The model makes no claim about distributions.
  The source's sampling loops have no attempt bound. When the stream runs out first, the model
  reports `DrawsExhausted` where the source would keep looping.
- Floating point is not modelled: values are reals. This leaves out:
  - the `np.float32` cast of the window;
  - NaN semantics (the marker cells are removed instead);
  - `.round(decimals=2)` on the overlap percentages;
  - `np.sqrt`.
- RmseArray.DemRmse: returns the mean squared difference, not its square root, because the reals
  have no square root. Zero, symmetry and sign carry over to the root.
- RmsePoints.PointsRmse: returns the mean squared difference, not its square root, for the same
  reason.
- RmseArray.MeanSquaredDifferenceZeroIff: states zero exactly when every squared difference is
  zero. It is not restated over the values themselves.
- A zero pixel width or height (`gt[1]` or `gt[5]`) makes the source raise ZeroDivisionError in
  `SamplePoint`, `SampleWindow` and `sample_points`. The model leaves that error out and requires
  non-zero `gt[1]` and `gt[5]` (`Geo.Invertible`, `RasterWrapper.Sampleable`).
- RasterWrapper.SampleWindow:
  - A window that extends past the raster ends the search with `ReachesEdge`. numpy's negative
    start indices and clamped slices are not followed. Slicing never raises, so the source's
    `except IndexError` is not reached there.
  - Because of this the model always ends, while the source need not: with `grow_window` on and a
    raster that is all no-data, the source's clamped window keeps growing forever.
  - `max_grow` is accepted and never read, as in the source.
- Shapely and geopandas geometry are abstract:
  - `within`, `intersects`, `is_valid`, `.bounds` and the overlay;
  - the areas behind `ovlp_perc_1`/`ovlp_perc_2` (input columns);
  - CRS reprojection (`to_crs`).
- `raster_bounds` in `RMSE_points.py` (rasterio `shapes` vectorising) is not part of this model.
  Each footprint is a bounds box plus an abstract `within`.
- The plotting branch and the `-w` shapefile output of `RMSE_points.py` are left out. So is the
  `print` of results.
- SelectDems.Sjoin: `gpd.sjoin`'s row order is modelled as the input order, each row repeated once
  per intersecting AOI geometry. The dropped `index_right` column is not modelled.
- SelectDems.SelectSetsmDems: the loading branches are left out (`query_footprint`, the
  `scenes`/`fgdb` paths). The model receives the footprint table, the ICESat strip table and
  whether a `reg_src` column exists.
- SelectMaxOverlap.SortedByOverlap: `sort_values` uses an unstable quicksort by default. The model
  sorts stably, which is one of the orders the source may produce. `SelectionIsTop` holds for any
  such order.
- SelectMaxOverlap.SelectedDems: the DEM table is a map keyed by id. Its row order and the
  `merge` with the original geometries are not modelled.
- The `og_cols` bookkeeping (sorting, renaming the `_1`/`_2` columns) is not modelled; each side
  carries the columns the model reads.
- Path semantics are POSIX only (`posixpath`). `arcpy_diff.py` runs under arcpy, usually on
  Windows, where `os.path` is `ntpath` (backslashes, drive letters); that is not modelled.
- ArcpyDiff.DiffPathNames: assumes the pair directory's name is non-empty and the source
  directory is absolute. `os.path.abspath` is applied on the command line.
- `clip2min_bb()` at `clip2min_bb.py:118-122` has an empty body and has nothing to model.

## Findings

| source | as written | input that shows it | evidently intended | confidence | as-written member | corrected member |
|---|---|---|---|---|---|---|
| clip2min_bb.py:108-112 | `out_dir == os.path.dirname(dem_p)` compares instead of assigning, so `out_dir` is never defaulted | no `-o`, dems `["dems/a.tif"]`: `os.path.join(None, "a_trans.tif")` raises TypeError (and with `-o ""` the clip lands in the current directory) | without `-o`, write each clip beside its own DEM (`dems/a_trans.tif`), as the `-o` help text at clip2min_bb.py:183-184 says ("Defaults to current directory for each DEM provided"); the one-character fix `=` would instead keep the first DEM's directory for every later DEM | not executed | ClipMinBB.TranslateDemsAsWritten, ClipMinBB.AsWrittenIgnoresDemDirectory | ClipMinBB.TranslateDems, ClipMinBB.OutputPathPlacement |
