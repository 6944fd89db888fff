/** arcpy_diff: for every pair directory under a source directory, difference its two DEMs, the
    later-dated minus the earlier, into `<source name>_<pair name>_diff.tif` inside the pair
    directory; a directory holding any other number of DEMs is reported and skipped. The raster
    arithmetic is arcpy's and is not modelled: the model says which rasters are differenced, in
    which order, and where the result goes. */
module ArcpyDiff {
  import opened Strings
  import opened Paths
  import F = Frames
  import S = Sorting
  import Clip = ClipMinBB

  /** Characters 5 to 12 of the file name: the acquisition date in a SETSM DEM name. */
  function DateKey(path: string): (k: string)
    ensures |k| <= 7
    ensures forall i :: 0 <= i < |k| ==> 5 + i < |Basename(path)| && k[i] == Basename(path)[5 + i]
  {
    Slice(Basename(path), 5, 12)
  }

  function StrOrder(): (string, string) -> bool {
    (a: string, b: string) => StrLe(a, b)
  }

  lemma StrOrderIsTotal()
    ensures S.TotalPreorder(StrOrder())
  {
    forall a, b
      ensures StrLe(a, b) || StrLe(b, a)
    {
      StrLeTotal(a, b);
    }
    forall a, b, c | StrLe(a, b) && StrLe(b, c)
      ensures StrLe(a, c)
    {
      StrLeTransitive(a, b, c);
    }
  }

  function ByDate(dems: seq<string>): seq<string> {
    S.SortBy(dems, DateKey, StrOrder())
  }

  /** `order_by_date`: `list.sort` by the date key, in place, returning the same list. */
  method OrderByDate(dems: array<string>) returns (r: array<string>)
    modifies dems
    ensures r == dems
    ensures dems[..] == ByDate(old(dems[..]))
  {
    var sorted := S.SortBy(dems[..], DateKey, StrOrder());
    forall i | 0 <= i < dems.Length {
      dems[i] := sorted[i];
    }
    return dems;
  }

  /** The sorted list holds the same paths, is ordered by date key, and keeps paths with equal keys
      in their listing order. */
  lemma ByDateSpec(dems: seq<string>, k: string)
    ensures multiset(ByDate(dems)) == multiset(dems)
    ensures S.SortedBy(ByDate(dems), DateKey, StrOrder())
    ensures S.Ties(ByDate(dems), DateKey, StrOrder(), k) == S.Ties(dems, DateKey, StrOrder(), k)
  {
    StrOrderIsTotal();
    S.SortPermutes(dems, DateKey, StrOrder());
    S.SortSorted(dems, DateKey, StrOrder());
    S.SortStable(dems, DateKey, StrOrder(), k);
  }

  /** For two paths: the earlier key first, and on a tie the order they were listed in. */
  lemma ByDateOfTwo(x: string, y: string)
    ensures ByDate([x, y]) == if StrLe(DateKey(x), DateKey(y)) then [x, y] else [y, x]
  {
    S.SortTwo(x, y, DateKey, StrOrder());
  }

  const DemSuffixes: seq<string> := ["dem.tif", "DEM.tif", "trans.tif", "dem_reg.tif"]

  function IsDemFile(): string -> bool {
    (x: string) => EndsWithAny(x, DemSuffixes)
  }

  /** The comprehension collecting a pair directory's DEMs. */
  function DemsIn(pairDir: string, files: seq<string>): seq<string> {
    JoinAll(pairDir, F.Filter(files, IsDemFile()))
  }

  /** The clips clip2min_bb writes end in `_trans.tif`, so they count as DEMs here. */
  lemma ClippedDemsAreConsidered(dem: string)
    ensures IsDemFile()(Clip.TransName(dem))
  {
    var suffix := DemSuffixes[2];
    assert "_" + suffix == "_trans.tif";
    EndsWithShorter(Clip.TransName(dem), "_", suffix);
  }

  /** `op`: `<name of the pair directory's parent>_<name of the pair directory>_diff.tif`, inside the pair directory. */
  function DiffPath(pairDir: string): string {
    var pairName := Split(Split(pairDir).0).1;
    Join(pairDir, pairName + "_" + Split(pairDir).1 + "_diff.tif")
  }

  /** For a pair directory `p` under an absolute source directory the result is
      `<source name>_<p>_diff.tif` inside `p`. */
  lemma DiffPathNames(srcDir: string, p: string)
    requires srcDir == [] || AllSlashes(srcDir) || srcDir[|srcDir| - 1] != '/'
    requires p != [] && IsEntryName(p)
    ensures var out := DiffPath(Join(srcDir, p));
      && Basename(out) == Basename(srcDir) + "_" + p + "_diff.tif"
      && Dirname(out) == Join(srcDir, p)
  {
    var d := Join(srcDir, p);
    SplitJoin(srcDir, p);
    var name := Basename(srcDir) + "_" + p + "_diff.tif";
    assert DiffPath(d) == Join(d, name);
    DiffNameIsEntryName(srcDir, p);
    PairDirShape(srcDir, p);
    SplitJoin(d, name);
  }

  lemma DiffNameIsEntryName(srcDir: string, p: string)
    requires IsEntryName(p)
    ensures IsEntryName(Basename(srcDir) + "_" + p + "_diff.tif")
  {
    BasenameIsEntryName(srcDir);
    var b := Basename(srcDir);
    var name := b + "_" + p + "_diff.tif";
    forall k | 0 <= k < |name|
      ensures name[k] != '/'
    {
      if k < |b| {
        assert name[k] == b[k];
      } else if |b| < k < |b| + 1 + |p| {
        assert name[k] == p[k - |b| - 1];
      }
    }
  }

  lemma PairDirShape(srcDir: string, p: string)
    requires p != [] && IsEntryName(p)
    ensures var d := Join(srcDir, p); d == [] || AllSlashes(d) || d[|d| - 1] != '/'
  {
    var d := Join(srcDir, p);
    assert d[|d| - 1] == p[|p| - 1];
    assert p[|p| - 1] in p;
  }

  /** What happens in one pair directory; `NotListable` is the error `os.listdir` raises on a path
      that is not a directory, which ends `main`. */
  datatype PairOutcome =
    | Difference(later: string, earlier: string, output: string)
    | WrongCount(found: nat)
    | NotListable(path: string)

  function PairOutcomeOf(pairDir: string, files: seq<string>): PairOutcome {
    var dems := DemsIn(pairDir, files);
    if |dems| == 2 then
      var sorted := ByDate(dems);
      Difference(sorted[1], sorted[0], DiffPath(pairDir))
    else WrongCount(|dems|)
  }

  /** A difference is made exactly when two DEMs are found; it is the later-dated one minus the
      earlier, ties kept in listing order, and it is written to the pair directory's diff path. */
  lemma PairOutcomeSpec(pairDir: string, files: seq<string>)
    ensures var o := PairOutcomeOf(pairDir, files);
      var dems := DemsIn(pairDir, files);
      && (o.Difference? <==> |dems| == 2)
      && (o.WrongCount? ==> o.found == |dems| && o.found != 2)
      && (o.Difference? ==>
            && multiset{o.earlier, o.later} == multiset(dems)
            && StrLe(DateKey(o.earlier), DateKey(o.later))
            && (StrLe(DateKey(dems[1]), DateKey(dems[0])) && StrLe(DateKey(dems[0]), DateKey(dems[1])) ==>
                  o.earlier == dems[0] && o.later == dems[1])
            && o.output == DiffPath(pairDir))
  {
    var dems := DemsIn(pairDir, files);
    if |dems| == 2 {
      assert dems == [dems[0], dems[1]];
      ByDateOfTwo(dems[0], dems[1]);
      StrLeTotal(DateKey(dems[0]), DateKey(dems[1]));
    }
  }

  /** One entry of the source directory: its listing's outcome, or the listing error when the
      entry is not a directory. */
  function EntryOutcome(fs: Clip.FileSystem, pairDir: string): PairOutcome {
    if fs.isDir(pairDir) then PairOutcomeOf(pairDir, fs.listdir(pairDir)) else NotListable(pairDir)
  }

  /** One pair directory: list it, collect the DEMs, and difference them when there are two; listing
      a path that is not a directory fails. */
  method DiffPair(fs: Clip.FileSystem, srcDir: string, p: string) returns (o: PairOutcome)
    ensures o.NotListable? <==> !fs.isDir(Join(srcDir, p))
    ensures o.NotListable? ==> o.path == Join(srcDir, p)
    ensures !o.NotListable? ==> o == PairOutcomeOf(Join(srcDir, p), fs.listdir(Join(srcDir, p)))
  {
    var pairDir := Join(srcDir, p);
    if !fs.isDir(pairDir) {
      return NotListable(pairDir);
    }
    var files := fs.listdir(pairDir);
    var dems := DemsIn(pairDir, files);
    if |dems| == 2 {
      var a := new string[2][dems[0], dems[1]];
      assert a[..] == dems;
      var ordered := OrderByDate(a);
      o := Difference(ordered[1], ordered[0], DiffPath(pairDir));
    } else {
      o := WrongCount(|dems|);
    }
  }

  /** `main`: the entries of the source directory in listing order, each handled as `DiffPair` does,
      until the first listing error, which ends the run (a source path that is not a directory fails
      at once). */
  method DiffAll(fs: Clip.FileSystem, srcDir: string) returns (outcomes: seq<PairOutcome>)
    ensures !fs.isDir(srcDir) ==> outcomes == [NotListable(srcDir)]
    ensures fs.isDir(srcDir) ==>
      && |outcomes| <= |fs.listdir(srcDir)|
      && (forall i :: 0 <= i < |outcomes| ==> outcomes[i] == EntryOutcome(fs, Join(srcDir, fs.listdir(srcDir)[i])))
      && (forall i :: 0 <= i < |outcomes| - 1 ==> !outcomes[i].NotListable?)
      && (|outcomes| == |fs.listdir(srcDir)| || (outcomes != [] && outcomes[|outcomes| - 1].NotListable?))
  {
    if !fs.isDir(srcDir) {
      return [NotListable(srcDir)];
    }
    var entries := fs.listdir(srcDir);
    outcomes := [];
    var i := 0;
    while i < |entries|
      invariant i <= |entries| && |outcomes| == i
      invariant forall k :: 0 <= k < i ==> outcomes[k] == EntryOutcome(fs, Join(srcDir, entries[k]))
      invariant forall k :: 0 <= k < i ==> !outcomes[k].NotListable?
    {
      var o := DiffPair(fs, srcDir, entries[i]);
      outcomes := outcomes + [o];
      if o.NotListable? {
        return;
      }
      i := i + 1;
    }
  }
}
