/** clip2min_bb: collect DEM paths from files and directories, clip every DEM to the minimum bounding
    box of all of them, and optionally write that box as a one-polygon shapefile. The GDAL and OGR
    calls are not modelled; what is modelled is which paths are collected, which window and output
    path each clip receives, and which ring and path the shapefile gets. */
module ClipMinBB {
  import opened Base
  import opened Strings
  import opened Paths
  import F = Frames
  import E = Extent
  import RW = RasterWrapper

  /** The file system as the script sees it during one run: directory listings, the two tests it
      makes, and `os.path.abspath` (which depends on the working directory). */
  datatype FileSystem = FileSystem(
    listdir: string -> seq<string>,
    isDir: string -> bool,
    isFile: string -> bool,
    abspath: string -> string)

  function HasSuffix(suffix: string): string -> bool {
    n => EndsWith(n, suffix)
  }

  function MatchingFilesOf(directory: string, listing: seq<string>, suffix: string): seq<string> {
    JoinAll(directory, F.Filter(listing, HasSuffix(suffix)))
  }

  /** `matching_files`: one pass over the listing, appending the joined path of every name that
      ends with the suffix. */
  method MatchingFiles(fs: FileSystem, directory: string, suffix: string) returns (paths: seq<string>)
    ensures paths == MatchingFilesOf(directory, fs.listdir(directory), suffix)
  {
    var listing := fs.listdir(directory);
    paths := [];
    for i := 0 to |listing|
      invariant paths == MatchingFilesOf(directory, listing[..i], suffix)
    {
      F.FilterAppend(listing[..i], listing[i], HasSuffix(suffix));
      assert listing[..i + 1] == listing[..i] + [listing[i]];
      if EndsWith(listing[i], suffix) {
        paths := paths + [Join(directory, listing[i])];
      }
    }
    assert listing[..|listing|] == listing;
  }

  /** A joined path ends with the name joined on. */
  lemma JoinEndsWithName(a: string, b: string, suffix: string)
    requires EndsWith(b, suffix)
    ensures EndsWith(Join(a, b), suffix)
  {
    if |b| > 0 && b[0] == '/' {
    } else if a == [] || a[|a| - 1] == '/' {
      EndsWithAppend(a, b, suffix);
    } else {
      EndsWithAppend(a + "/", b, suffix);
      assert a + "/" + b == (a + "/") + b;
    }
  }

  /** A path is matched exactly when it is the directory joined to a listed name that ends with
      the suffix; every match ends with the suffix itself. */
  lemma MatchingFilesMembers(directory: string, listing: seq<string>, suffix: string, p: string)
    ensures p in MatchingFilesOf(directory, listing, suffix)
        <==> exists n :: n in listing && EndsWith(n, suffix) && p == Join(directory, n)
    ensures p in MatchingFilesOf(directory, listing, suffix) ==> EndsWith(p, suffix)
  {
    var kept := F.Filter(listing, HasSuffix(suffix));
    var r := MatchingFilesOf(directory, listing, suffix);
    if p in r {
      var i :| 0 <= i < |r| && r[i] == p;
      F.FilterMembers(listing, HasSuffix(suffix), kept[i]);
      JoinEndsWithName(directory, kept[i], suffix);
    }
    if exists n :: n in listing && EndsWith(n, suffix) && p == Join(directory, n) {
      var n :| n in listing && EndsWith(n, suffix) && p == Join(directory, n);
      F.FilterMembers(listing, HasSuffix(suffix), n);
      var i :| 0 <= i < |kept| && kept[i] == n;
      assert r[i] == p;
    }
  }

  function Basenames(paths: seq<string>): (r: seq<string>)
    ensures |r| == |paths| && forall i :: 0 <= i < |paths| ==> r[i] == Basename(paths[i])
  {
    seq(|paths|, i requires 0 <= i < |paths| => Basename(paths[i]))
  }

  /** Listing order is kept: the matched paths' basenames are the matching names, in the order
      the listing gives them. */
  lemma MatchingFilesInListingOrder(directory: string, listing: seq<string>, suffix: string)
    requires forall n :: n in listing ==> IsEntryName(n)
    ensures Basenames(MatchingFilesOf(directory, listing, suffix)) == F.Filter(listing, HasSuffix(suffix))
    ensures F.IsSubsequence(Basenames(MatchingFilesOf(directory, listing, suffix)), listing)
  {
    var kept := F.Filter(listing, HasSuffix(suffix));
    forall i | 0 <= i < |kept|
      ensures Basename(Join(directory, kept[i])) == kept[i]
    {
      F.FilterMembers(listing, HasSuffix(suffix), kept[i]);
      BasenameJoin(directory, kept[i]);
    }
    F.FilterIsSubsequence(listing, HasSuffix(suffix));
  }

  /** What one `src` item contributes: a directory its matching files (under its absolute path),
      a file itself as given, anything else nothing. */
  function Expand(fs: FileSystem, item: string, suffix: string): seq<string> {
    var abs := fs.abspath(item);
    if fs.isDir(abs) then MatchingFilesOf(abs, fs.listdir(abs), suffix)
    else if fs.isFile(abs) then [item]
    else []
  }

  function ParseSrcOf(fs: FileSystem, src: seq<string>, suffix: string): seq<string> {
    F.FlatMap(src, item => Expand(fs, item, suffix))
  }

  /** `parse_src`: a pass over the items, extending the result with each item's contribution. */
  method ParseSrc(fs: FileSystem, src: seq<string>, suffix: string) returns (paths: seq<string>)
    ensures paths == ParseSrcOf(fs, src, suffix)
  {
    paths := [];
    for i := 0 to |src|
      invariant paths == ParseSrcOf(fs, src[..i], suffix)
    {
      assert src[..i + 1][..i] == src[..i];
      var item := src[i];
      var absItem := fs.abspath(item);
      if fs.isDir(absItem) {
        var found := MatchingFiles(fs, absItem, suffix);
        paths := paths + found;
      } else if fs.isFile(absItem) {
        paths := paths + [item];
      }
    }
    assert src[..|src|] == src;
  }

  /** The items are handled independently and in order: parsing a concatenation concatenates. */
  lemma ParseSrcConcat(fs: FileSystem, a: seq<string>, b: seq<string>, suffix: string)
    ensures ParseSrcOf(fs, a + b, suffix) == ParseSrcOf(fs, a, suffix) + ParseSrcOf(fs, b, suffix)
  {
    F.FlatMapConcat(a, b, item => Expand(fs, item, suffix));
  }

  /** Plain files are passed through exactly as given, not made absolute, in their order. */
  lemma {:induction false} ParseSrcKeepsFilesAsGiven(fs: FileSystem, src: seq<string>, suffix: string)
    requires forall i :: 0 <= i < |src| ==> !fs.isDir(fs.abspath(src[i])) && fs.isFile(fs.abspath(src[i]))
    ensures ParseSrcOf(fs, src, suffix) == src
    decreases |src|
  {
    if src != [] {
      var n := |src| - 1;
      ParseSrcKeepsFilesAsGiven(fs, src[..n], suffix);
      assert src[..n] + [src[n]] == src;
    }
  }

  /** Items that are neither a directory nor a file are dropped without an error. */
  lemma {:induction false} ParseSrcDropsOthers(fs: FileSystem, src: seq<string>, suffix: string)
    requires forall i :: 0 <= i < |src| ==> !fs.isDir(fs.abspath(src[i])) && !fs.isFile(fs.abspath(src[i]))
    ensures ParseSrcOf(fs, src, suffix) == []
    decreases |src|
  {
    if src != [] {
      ParseSrcDropsOthers(fs, src[..|src| - 1], suffix);
    }
  }

  /** `p` is `item` itself, given as a file, or `item` is a directory and `p` ends with the suffix. */
  predicate Provides(fs: FileSystem, item: string, suffix: string, p: string) {
    || (p == item && fs.isFile(fs.abspath(item)))
    || (fs.isDir(fs.abspath(item)) && EndsWith(p, suffix))
  }

  /** Every collected path is either an item given as a file, or a file of a given directory that
      ends with the suffix. */
  lemma {:induction false} ParseSrcProvenance(fs: FileSystem, src: seq<string>, suffix: string, p: string)
    requires p in ParseSrcOf(fs, src, suffix)
    ensures exists i :: 0 <= i < |src| && Provides(fs, src[i], suffix, p)
    decreases |src|
  {
    var n := |src| - 1;
    if p in ParseSrcOf(fs, src[..n], suffix) {
      ParseSrcProvenance(fs, src[..n], suffix, p);
      var i :| 0 <= i < n && Provides(fs, src[..n][i], suffix, p);
      assert src[..n][i] == src[i];
    } else {
      var abs := fs.abspath(src[n]);
      if fs.isDir(abs) {
        MatchingFilesMembers(abs, fs.listdir(abs), suffix, p);
      }
    }
  }

  /** `'{}_trans.tif'.format(...)` of the stem. */
  function TransName(dem: string): (name: string)
    ensures IsEntryName(name)
    ensures EndsWith(name, "_trans.tif")
  {
    var stem := Stem(dem);
    assert (stem + "_trans.tif")[|stem|..] == "_trans.tif";
    stem + "_trans.tif"
  }

  /** One `gdal.Translate` call: which DEM, where the clip is written, and the window. */
  datatype Translation = Translation(source: string, output: string, window: E.ProjWin)

  /** `os.path.join(None, ...)` raises TypeError. */
  datatype TranslateError = TypeError

  /** The output path as line 112 computes it, where the `out_dir` default on line 109 is a
      comparison and so never takes effect: without `-o` the join raises. */
  function OutputPathAsWritten(outDir: Option<string>, dem: string): (r: Result<string, TranslateError>)
    ensures r.Err? <==> outDir.None?
  {
    if outDir.None? then Err(TypeError)
    else Ok(Join(outDir.value, TransName(dem)))
  }

  /** When the as-written join succeeds, the clip is named after its DEM. */
  lemma OutputPathAsWrittenName(outDir: Option<string>, dem: string)
    ensures OutputPathAsWritten(outDir, dem).Ok? ==> Basename(OutputPathAsWritten(outDir, dem).value) == TransName(dem)
  {
    if outDir.Some? {
      BasenameJoin(outDir.value, TransName(dem));
    }
  }

  /** `translate_dems` as written: the first DEM already raises when no output directory is given;
      an empty `-o ""` puts every clip in the working directory. */
  method TranslateDemsAsWritten(dems: seq<string>, projWin: E.ProjWin, outDir: Option<string>)
    returns (r: Result<seq<Translation>, TranslateError>)
    ensures r.Err? <==> outDir.None? && |dems| > 0
    ensures r.Ok? ==> |r.value| == |dems|
    ensures r.Ok? && outDir.Some? ==> r.value == F.Map(dems, TranslateInto(outDir.value, projWin))
  {
    var done: seq<Translation> := [];
    for i := 0 to |dems|
      invariant outDir.None? ==> i == 0
      invariant |done| == i
      invariant outDir.Some? ==> done == F.Map(dems[..i], TranslateInto(outDir.value, projWin))
    {
      var out := OutputPathAsWritten(outDir, dems[i]);
      if out.Err? {
        return Err(out.error);
      }
      var t := Translation(dems[i], out.value, projWin);
      assert TranslateInto(outDir.value, projWin)(dems[i]) == t;
      assert dems[..i + 1][..i] == dems[..i];
      done := done + [t];
    }
    assert dems[..|dems|] == dems;
    return Ok(done);
  }

  /** The discrepancy, for every DEM path: with no `-o` the as-written join raises where a clip
      next to the DEM was meant. */
  lemma AsWrittenIgnoresDemDirectory(dem: string)
    ensures OutputPathAsWritten(None, dem) == Err(TypeError)
    ensures Dirname(OutputPath(None, dem)) == Dirname(dem)
  {
    OutputPathPlacement(None, dem);
  }

  /** With `-o ""` the as-written clip lands in the working directory (a path with no directory
      part) even when the DEM has one, where the clip next to the DEM was meant. */
  lemma AsWrittenEmptyOutDirIgnoresDemDirectory(dem: string)
    ensures OutputPathAsWritten(Some(""), dem) == Ok(TransName(dem))
    ensures Dirname(OutputPathAsWritten(Some(""), dem).value) == []
    ensures Dirname(OutputPath(Some(""), dem)) == Dirname(dem)
  {
    OutputPathPlacement(Some(""), dem);
    EntryNameHasNoDirectory(TransName(dem));
  }

  /** The output directory the help text promises: `-o` when given and non-empty, otherwise the
      DEM's own directory. */
  function OutputDir(outDir: Option<string>, dem: string): string {
    if outDir.None? || outDir.value == [] then Dirname(dem) else outDir.value
  }

  function OutputPath(outDir: Option<string>, dem: string): string {
    Join(OutputDir(outDir, dem), TransName(dem))
  }

  /** Every clip is named after its DEM; without `-o` it lands next to its DEM, with it in `-o`. */
  lemma OutputPathPlacement(outDir: Option<string>, dem: string)
    ensures Basename(OutputPath(outDir, dem)) == TransName(dem)
    ensures outDir.None? || outDir.value == [] ==> Dirname(OutputPath(outDir, dem)) == Dirname(dem)
    ensures outDir.Some? && outDir.value != [] ==> OutputPath(outDir, dem) == Join(outDir.value, TransName(dem))
  {
    if outDir.None? || outDir.value == [] {
      DirnameJoin(dem, TransName(dem));
    } else {
      BasenameJoin(outDir.value, TransName(dem));
    }
  }

  /** Where the two versions both produce a path (a non-empty `-o`) they agree. */
  lemma OutputPathAgreesWithAsWritten(d: string, dem: string)
    requires d != []
    ensures OutputPathAsWritten(Some(d), dem) == Ok(OutputPath(Some(d), dem))
  {
  }

  /** `translate_dems` with the default taking effect: one clip per DEM, in order, each to the
      window and to its output path. */
  method TranslateDems(dems: seq<string>, projWin: E.ProjWin, outDir: Option<string>)
    returns (ts: seq<Translation>)
    ensures ts == F.Map(dems, TranslateTo(outDir, projWin))
  {
    ts := [];
    for i := 0 to |dems|
      invariant ts == F.Map(dems[..i], TranslateTo(outDir, projWin))
    {
      var t := Translation(dems[i], OutputPath(outDir, dems[i]), projWin);
      assert TranslateTo(outDir, projWin)(dems[i]) == t;
      assert dems[..i + 1][..i] == dems[..i];
      ts := ts + [t];
    }
    assert dems[..|dems|] == dems;
  }

  /** One DEM's `gdal.Translate` call under the corrected default. */
  function TranslateTo(outDir: Option<string>, projWin: E.ProjWin): string -> Translation {
    (dem: string) => Translation(dem, OutputPath(outDir, dem), projWin)
  }

  /** One DEM's `gdal.Translate` call as written, once an output directory is given. */
  function TranslateInto(outDir: string, projWin: E.ProjWin): string -> Translation {
    (dem: string) => Translation(dem, OutputPathAsWritten(Some(outDir), dem).value, projWin)
  }

  /** The shapefile `write_min_bb` writes: its path and the polygon's ring. */
  datatype Shapefile = Shapefile(path: string, ring: seq<(real, real)>)

  /** The ring's four corners, in the order the points are added. */
  function Ring(w: E.ProjWin): (ring: seq<(real, real)>)
    ensures |ring| == 4
    ensures ring[0] == (w.ulx, w.lry) && ring[2] == (w.lrx, w.uly)
  {
    [(w.ulx, w.lry), (w.lrx, w.lry), (w.lrx, w.uly), (w.ulx, w.uly)]
  }

  /** Twice the signed area of a closed ring (shoelace formula); positive means counter-clockwise. */
  function TwiceSignedArea(ring: seq<(real, real)>): real {
    if |ring| < 2 then 0.0
    else
      var n := |ring|;
      Shoelace(ring, n - 1) + (ring[n - 1].0 * ring[0].1 - ring[0].0 * ring[n - 1].1)
  }

  function Shoelace(ring: seq<(real, real)>, k: nat): real
    requires k < |ring|
  {
    if k == 0 then 0.0
    else Shoelace(ring, k - 1) + (ring[k - 1].0 * ring[k].1 - ring[k].0 * ring[k - 1].1)
  }

  lemma MultiplyNonNegative(a: real, b: real)
    requires 0.0 <= a && 0.0 <= b
    ensures 0.0 <= a * b
  {
  }

  /** The ring walks the box's corners counter-clockwise with axis-parallel edges, each corner in
      the box when the box is not inverted, and encloses the box's area. */
  lemma RingTracesBox(w: E.ProjWin)
    ensures var r := Ring(w);
      && r[0].1 == r[1].1 && r[1].0 == r[2].0 && r[2].1 == r[3].1 && r[3].0 == r[0].0
    ensures w.ulx <= w.lrx && w.lry <= w.uly ==>
      forall i :: 0 <= i < 4 ==> E.InWin(w, Ring(w)[i].0, Ring(w)[i].1)
    ensures TwiceSignedArea(Ring(w)) == 2.0 * (w.lrx - w.ulx) * (w.uly - w.lry)
    ensures w.ulx <= w.lrx && w.lry <= w.uly ==> 0.0 <= TwiceSignedArea(Ring(w))
  {
    var r := Ring(w);
    var a, b, c, d := w.ulx, w.uly, w.lrx, w.lry;
    assert Shoelace(r, 1) == a * d - c * d;
    assert Shoelace(r, 2) == (a * d - c * d) + (c * b - c * d);
    assert Shoelace(r, 3) == (a * d - c * d) + (c * b - c * d) + (c * b - a * b);
    assert TwiceSignedArea(r) == (a * d - c * d) + (c * b - c * d) + (c * b - a * b) + (a * d - a * b);
    assert (a * d - c * d) + (c * b - c * d) + (c * b - a * b) + (a * d - a * b) == 2.0 * (c - a) * (b - d);
    if a <= c && d <= b {
      MultiplyNonNegative(2.0 * (c - a), b - d);
    }
  }

  /** The shapefile's directory: `-o` when given and non-empty, otherwise the first DEM's. */
  function ShapefileDir(outDir: Option<string>, dems: seq<string>): string
    requires |dems| > 0
  {
    if outDir.None? || outDir.value == [] then Dirname(dems[0]) else outDir.value
  }

  /** `write_min_bb`: `dems[0]` is read for the projection in every case, so the list must be
      non-empty. */
  function WriteMinBB(projWin: E.ProjWin, outDir: Option<string>, dems: seq<string>): (s: Shapefile)
    requires |dems| > 0
    ensures Basename(s.path) == "minimum_bb.shp"
    ensures outDir.None? || outDir.value == [] ==> Dirname(s.path) == Dirname(dems[0])
    ensures s.ring == Ring(projWin)
  {
    DirnameJoin(dems[0], "minimum_bb.shp");
    BasenameJoin(ShapefileDir(outDir, dems), "minimum_bb.shp");
    Shapefile(Join(ShapefileDir(outDir, dems), "minimum_bb.shp"), Ring(projWin))
  }

  /** What a run produces: one clip per DEM and, with `-w`, the shapefile. */
  datatype Run = Run(translations: seq<Translation>, shape: Option<Shapefile>)

  /** `max([])` raises ValueError when no DEM was collected. */
  datatype ClipError = NoDems

  /** The script's main block with the output-directory default taking effect. Each path's raster
      is given by `rasterAt`, standing in for `gdal.Open`. */
  method Clip2MinBB(fs: FileSystem, rasterAt: string -> RW.Raster, src: seq<string>, suffix: string,
                    writeShp: bool, outDir: Option<string>)
    returns (r: Result<Run, ClipError>)
    ensures var dems := ParseSrcOf(fs, src, suffix);
      && (r.Err? <==> dems == [])
      && (r.Ok? ==>
        var rasters := seq(|dems|, i requires 0 <= i < |dems| => rasterAt(dems[i]));
        var w := E.MinimumBoundingBoxOf(E.AllBounds(rasters));
        && r.value.translations == F.Map(dems, TranslateTo(outDir, w))
        && (r.value.shape.Some? <==> writeShp)
        && (writeShp ==> r.value.shape.value == WriteMinBB(w, outDir, dems)))
  {
    var dems := ParseSrc(fs, src, suffix);
    if dems == [] {
      return Err(NoDems);
    }
    var rasters := seq(|dems|, i requires 0 <= i < |dems| => rasterAt(dems[i]));
    var projWin := E.MinimumBoundingBox(rasters);
    var ts := TranslateDems(dems, projWin, outDir);
    var shape := if writeShp then Some(WriteMinBB(projWin, outDir, dems)) else None;
    return Ok(Run(ts, shape));
  }
}
