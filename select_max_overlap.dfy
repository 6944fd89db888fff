/** select_max_overlap_DEMs: from the pairwise intersections of DEM footprints, keep the n pairs of
    distinct DEMs that overlap most, write each pair's two paths as a line of text, and collect the
    DEMs taking part. Geometry (the overlay, the areas) arrives as input columns. */
module SelectMaxOverlap {
  import opened Base
  import opened Strings
  import opened Paths
  import F = Frames
  import S = Sorting

  /** One DEM's columns on one side of an intersection row (the `_1` or the `_2` columns), with the
      share of this DEM covered by the intersection, in percent, as geopandas computed it. */
  datatype Side = Side(demId: string, filepath: string, winPath: string, demName: string,
                       ptsCount: real, ovlpPerc: real)

  /** One row of `gpd.overlay(dems, dems)`: the two DEMs whose footprints intersect. */
  datatype Overlap = Overlap(left: Side, right: Side)

  /** `create_pair_id`: the two ids in string order, joined by `__`. */
  function CreatePairId(a: string, b: string): string {
    if StrLe(a, b) then a + "__" + b else b + "__" + a
  }

  /** The pair id lists the smaller id first, whichever order the ids come in. */
  lemma CreatePairIdOrdered(a: string, b: string)
    ensures || (CreatePairId(a, b) == a + "__" + b && StrLe(a, b))
            || (CreatePairId(a, b) == b + "__" + a && StrLe(b, a))
  {
    StrLeTotal(a, b);
  }

  /** The pair id does not depend on which DEM is on which side. */
  lemma CreatePairIdSymmetric(a: string, b: string)
    ensures CreatePairId(a, b) == CreatePairId(b, a)
  {
    StrLeTotal(a, b);
    if StrLe(a, b) && StrLe(b, a) {
      StrLeAntisymmetric(a, b);
    }
  }

  function PairId(r: Overlap): string {
    CreatePairId(r.left.demId, r.right.demId)
  }

  /** The row with its sides swapped: what the overlay also produces for the same two DEMs. */
  function Flipped(r: Overlap): Overlap {
    Overlap(r.right, r.left)
  }

  predicate IsSelfPair(r: Overlap) {
    r.left.demId == r.right.demId
  }

  function NotSelfPair(): Overlap -> bool {
    (r: Overlap) => !IsSelfPair(r)
  }

  /** `dir_name`: the first 13 characters of each id, joined by `-`. */
  function DirName(r: Overlap): (name: string)
    ensures |name| == |Prefix(r.left.demId, 13)| + 1 + |Prefix(r.right.demId, 13)| <= 27
    ensures name[..|Prefix(r.left.demId, 13)|] <= r.left.demId
    ensures name[|name| - |Prefix(r.right.demId, 13)|..] <= r.right.demId
  {
    var a, b := Prefix(r.left.demId, 13), Prefix(r.right.demId, 13);
    assert (a + "-" + b)[..|a|] == a;
    assert (a + "-" + b)[|a + "-" + b| - |b|..] == b;
    a + "-" + b
  }

  /** `ovlp_perc`: the mean of the two sides' overlap percentages. */
  function OvlpPerc(r: Overlap): (p: real)
    ensures r.left.ovlpPerc <= r.right.ovlpPerc ==> r.left.ovlpPerc <= p <= r.right.ovlpPerc
    ensures r.right.ovlpPerc <= r.left.ovlpPerc ==> r.right.ovlpPerc <= p <= r.left.ovlpPerc
  {
    (r.left.ovlpPerc + r.right.ovlpPerc) / 2.0
  }

  /** `mean_count`: the mean of the two sides' point counts. */
  function MeanCount(r: Overlap): (c: real)
    ensures r.left.ptsCount <= r.right.ptsCount ==> r.left.ptsCount <= c <= r.right.ptsCount
    ensures r.right.ptsCount <= r.left.ptsCount ==> r.right.ptsCount <= c <= r.left.ptsCount
  {
    (r.left.ptsCount + r.right.ptsCount) / 2.0
  }

  /** Swapping the sides changes neither the pair id nor the averages. */
  lemma FlippedSamePair(r: Overlap)
    ensures PairId(Flipped(r)) == PairId(r)
    ensures OvlpPerc(Flipped(r)) == OvlpPerc(r) && MeanCount(Flipped(r)) == MeanCount(r)
  {
    CreatePairIdSymmetric(r.left.demId, r.right.demId);
  }

  /** `ascending=False`: a row comes first when its overlap is at least the next one's. */
  function Descending(): (real, real) -> bool {
    (a: real, b: real) => b <= a
  }

  lemma DescendingIsTotal()
    ensures S.TotalPreorder(Descending())
  {
  }

  function SortedByOverlap(rows: seq<Overlap>): seq<Overlap> {
    S.SortBy(rows, OvlpPerc, Descending())
  }

  /** The self-pair filter and the pair de-duplication. */
  function DistinctPairs(rows: seq<Overlap>): seq<Overlap> {
    F.DropDuplicates(F.Filter(rows, NotSelfPair()), PairId)
  }

  /** The rows `select_max_ovlp` keeps: the filters, the sort and the slice `isect[0:n]`. */
  method SelectPairs(rows: seq<Overlap>, n: int) returns (isect: seq<Overlap>)
    ensures isect == F.PySlice(SortedByOverlap(DistinctPairs(rows)), 0, n)
  {
    isect := rows;
    isect := F.Filter(isect, NotSelfPair());
    isect := F.DropDuplicates(isect, PairId);
    isect := S.SortBy(isect, OvlpPerc, Descending());
    isect := isect[F.SliceIndex(0, |isect|)..F.SliceIndex(n, |isect|)];
  }

  /** After the filters no row pairs a DEM with itself, no two rows name the same two DEMs (in either
      order), no two rows share a `pair_id`, every row is an input row, and the rows keep their
      input order. */
  lemma DistinctPairsSpec(rows: seq<Overlap>)
    ensures var d := DistinctPairs(rows);
      && (forall i :: 0 <= i < |d| ==> !IsSelfPair(d[i]))
      && (forall i, j :: 0 <= i < j < |d| ==> d[i] != d[j] && d[i] != Flipped(d[j]))
      && F.DistinctKeys(d, PairId)
      && F.IsSubsequence(d, rows)
  {
    var kept := F.Filter(rows, NotSelfPair());
    var d := DistinctPairs(rows);
    F.DropDuplicatesSpec(kept, PairId);
    F.FilterIsSubsequence(rows, NotSelfPair());
    F.SubsequenceTransitive(d, kept, rows);
    forall i | 0 <= i < |d|
      ensures !IsSelfPair(d[i])
    {
      F.SubsequenceMembers(d, kept, d[i]);
      F.FilterMembers(rows, NotSelfPair(), d[i]);
    }
    forall i, j | 0 <= i < j < |d|
      ensures d[i] != d[j] && d[i] != Flipped(d[j])
    {
      FlippedSamePair(d[j]);
    }
  }

  /** Every pair of distinct DEMs that intersects keeps a row, and it is the first row naming that pair. */
  lemma DistinctPairsKeepFirst(rows: seq<Overlap>, i: int)
    requires 0 <= i < |rows| && !IsSelfPair(rows[i])
    requires forall j :: 0 <= j < i && !IsSelfPair(rows[j]) ==> PairId(rows[j]) != PairId(rows[i])
    ensures rows[i] in DistinctPairs(rows)
  {
    var kept := F.Filter(rows, NotSelfPair());
    F.FilterSplitAt(rows, NotSelfPair(), i);
    var m := |F.Filter(rows[..i], NotSelfPair())|;
    forall j | 0 <= j < m
      ensures PairId(kept[j]) != PairId(kept[m])
    {
      assert kept[j] in F.Filter(rows[..i], NotSelfPair());
      F.FilterMembers(rows[..i], NotSelfPair(), kept[j]);
      var k :| 0 <= k < i && rows[..i][k] == kept[j];
      assert kept[j] == rows[k];
    }
    F.DropDuplicatesKeepsFirst(kept, PairId, m);
  }

  /** In rows sorted by decreasing overlap, no row after position k overlaps more than one before it. */
  lemma SortedPrefixDominates(sorted: seq<Overlap>, k: nat, x: Overlap, y: Overlap)
    requires S.SortedBy(sorted, OvlpPerc, Descending())
    requires k <= |sorted| && x in sorted[..k] && y in sorted[k..]
    ensures OvlpPerc(y) <= OvlpPerc(x)
  {
    var i :| 0 <= i < k && sorted[..k][i] == x;
    var j :| 0 <= j < |sorted| - k && sorted[k..][j] == y;
    assert sorted[i] == x && sorted[k + j] == y;
    assert Descending()(OvlpPerc(sorted[i]), OvlpPerc(sorted[k + j]));
  }

  /** The selection holds min(n, rows) rows for n >= 0, ordered by decreasing overlap, all taken from
      the rows, and no row left out overlaps more than a row kept. */
  lemma SelectionIsTop(d: seq<Overlap>, n: int)
    requires n >= 0
    ensures var sel := F.PySlice(SortedByOverlap(d), 0, n);
      && |sel| == (if n < |d| then n else |d|)
      && S.SortedBy(sel, OvlpPerc, Descending())
      && multiset(sel) <= multiset(d)
      && (forall x, y :: x in sel && y in multiset(d) - multiset(sel) ==> OvlpPerc(y) <= OvlpPerc(x))
  {
    var sorted := SortedByOverlap(d);
    var sel := F.PySlice(sorted, 0, n);
    DescendingIsTotal();
    S.SortSorted(d, OvlpPerc, Descending());
    S.SortPermutes(d, OvlpPerc, Descending());
    assert sel == sorted[..|sel|];
    PrefixIsTop(sorted, d, |sel|);
  }

  /** A prefix of a rearrangement of `d` sorted by decreasing overlap is itself sorted, is drawn from
      `d`, and overlaps at least as much as every row of `d` it leaves out. */
  lemma PrefixIsTop(sorted: seq<Overlap>, d: seq<Overlap>, k: nat)
    requires k <= |sorted|
    requires S.SortedBy(sorted, OvlpPerc, Descending())
    requires multiset(sorted) == multiset(d)
    ensures S.SortedBy(sorted[..k], OvlpPerc, Descending())
    ensures multiset(sorted[..k]) <= multiset(d)
    ensures forall x, y :: x in sorted[..k] && y in multiset(d) - multiset(sorted[..k]) ==> OvlpPerc(y) <= OvlpPerc(x)
  {
    var sel := sorted[..k];
    assert sorted == sel + sorted[k..];
    assert multiset(d) - multiset(sel) == multiset(sorted[k..]);
    forall x, y | x in sel && y in multiset(d) - multiset(sel)
      ensures OvlpPerc(y) <= OvlpPerc(x)
    {
      SortedPrefixDominates(sorted, k, x, y);
    }
  }

  /** A negative n is a Python slice bound counted from the end: `isect[0:-m]` drops the last m rows. */
  lemma NegativeSelectionDropsTail(d: seq<Overlap>, m: int)
    requires 0 < m
    ensures F.PySlice(SortedByOverlap(d), 0, -m)
         == (if m <= |d| then SortedByOverlap(d)[..|d| - m] else [])
  {
  }

  /** `filepath_k_full`: the directory, `/`, and the DEM's file name. */
  function FilepathFull(s: Side): string {
    s.filepath + "/" + s.demName
  }

  /** `win_path_k_full`: the Windows directory, the raw string `r'\\'` (two backslashes), and the
      DEM's file name. */
  function WinPathFull(s: Side): string {
    s.winPath + "\\\\" + s.demName
  }

  /** One line of a pair file: each path followed by `, `, then a newline. */
  function PairLine(p1: string, p2: string): (line: string)
    ensures EndsWith(line, ", \n")
  {
    var line := p1 + ", " + p2 + ", " + "\n";
    assert line[|line| - 3..] == ", \n";
    line
  }

  /** Read back with `line.split(',')`, a line gives both paths (the second after its space) and the
      trailing space and newline, provided neither path holds a comma. */
  lemma PairLineFields(p1: string, p2: string)
    requires ',' !in p1 && ',' !in p2
    ensures SplitOn(PairLine(p1, p2), ',') == [p1, " " + p2, " \n"]
  {
    assert PairLine(p1, p2) == p1 + [','] + ((" " + p2) + [','] + " \n");
    SplitOnFirst(p1, ',', (" " + p2) + [','] + " \n");
    SplitOnFirst(" " + p2, ',', " \n");
    SplitOnAbsent(" \n", ',');
  }

  function FilepathLine(r: Overlap): string {
    PairLine(FilepathFull(r.left), FilepathFull(r.right))
  }

  function WinPathLine(r: Overlap): string {
    PairLine(WinPathFull(r.left), WinPathFull(r.right))
  }

  /** The two text files' contents: one line per selected row, in selection order. */
  method WritePairFiles(isect: seq<Overlap>) returns (filepathText: string, winPathText: string)
    ensures filepathText == F.FlatMap(isect, FilepathLine)
    ensures winPathText == F.FlatMap(isect, WinPathLine)
  {
    filepathText, winPathText := [], [];
    for i := 0 to |isect|
      invariant filepathText == F.FlatMap(isect[..i], FilepathLine)
      invariant winPathText == F.FlatMap(isect[..i], WinPathLine)
    {
      assert isect[..i + 1] == isect[..i] + [isect[i]];
      F.FlatMapSnoc(isect[..i], isect[i], FilepathLine);
      F.FlatMapSnoc(isect[..i], isect[i], WinPathLine);
      var row := isect[i];
      filepathText := filepathText + PairLine(FilepathFull(row.left), FilepathFull(row.right));
      winPathText := winPathText + PairLine(WinPathFull(row.left), WinPathFull(row.right));
    }
    assert isect[..|isect|] == isect;
  }

  /** What a side contributes to the DEM table: its columns plus the pair's `ovlp_perc`. */
  datatype Member = Member(side: Side, ovlpPerc: real)

  /** The dictionary an `iterrows` loop builds from one side: keyed by DEM id, a later row
      overwriting an earlier one. */
  function SideTable(rows: seq<Overlap>, pick: Overlap -> Side): map<string, Member> {
    if rows == [] then map[]
    else
      var r := rows[|rows| - 1];
      SideTable(rows[..|rows| - 1], pick)[pick(r).demId := Member(pick(r), OvlpPerc(r))]
  }

  function LeftSide(): Overlap -> Side {
    (r: Overlap) => r.left
  }

  function RightSide(): Overlap -> Side {
    (r: Overlap) => r.right
  }

  /** The `iterrows` loop filling `left_dt` and `right_dt`. */
  method CollectSides(isect: seq<Overlap>) returns (leftDt: map<string, Member>, rightDt: map<string, Member>)
    ensures leftDt == SideTable(isect, LeftSide())
    ensures rightDt == SideTable(isect, RightSide())
  {
    leftDt, rightDt := map[], map[];
    for i := 0 to |isect|
      invariant leftDt == SideTable(isect[..i], LeftSide())
      invariant rightDt == SideTable(isect[..i], RightSide())
    {
      assert isect[..i + 1][..i] == isect[..i];
      var row := isect[i];
      leftDt := leftDt[row.left.demId := Member(row.left, OvlpPerc(row))];
      rightDt := rightDt[row.right.demId := Member(row.right, OvlpPerc(row))];
    }
    assert isect[..|isect|] == isect;
  }

  /** The table has one entry per DEM id on that side, and the entry comes from the last row
      naming that DEM. */
  lemma {:induction false} SideTableLastWins(rows: seq<Overlap>, pick: Overlap -> Side, i: int)
    requires 0 <= i < |rows|
    requires forall j :: i < j < |rows| ==> pick(rows[j]).demId != pick(rows[i]).demId
    ensures pick(rows[i]).demId in SideTable(rows, pick)
    ensures SideTable(rows, pick)[pick(rows[i]).demId] == Member(pick(rows[i]), OvlpPerc(rows[i]))
    decreases |rows|
  {
    var n := |rows| - 1;
    if i < n {
      SideTableLastWins(rows[..n], pick, i);
      assert rows[..n][i] == rows[i];
    }
  }

  lemma {:induction false} SideTableKeys(rows: seq<Overlap>, pick: Overlap -> Side)
    ensures SideTable(rows, pick).Keys == set i | 0 <= i < |rows| :: pick(rows[i]).demId
    decreases |rows|
  {
    if rows != [] {
      var n := |rows| - 1;
      SideTableKeys(rows[..n], pick);
      var front := set i | 0 <= i < n :: pick(rows[..n][i]).demId;
      var all := set i | 0 <= i < |rows| :: pick(rows[i]).demId;
      assert front + {pick(rows[n]).demId} == all by {
        forall k | k in all
          ensures k in front + {pick(rows[n]).demId}
        {
          var i :| 0 <= i < |rows| && pick(rows[i]).demId == k;
          if i < n {
            assert rows[..n][i] == rows[i];
          }
        }
        forall k | k in front
          ensures k in all
        {
          var i :| 0 <= i < n && pick(rows[..n][i]).demId == k;
          assert rows[..n][i] == rows[i];
        }
      }
    }
  }

  /** `pd.concat([left_df, right_df])` followed by `drop_duplicates(subset=dem_id, keep='first')`:
      every DEM on either side, once, with the left-side entry winning. */
  function SelectedDems(leftDt: map<string, Member>, rightDt: map<string, Member>): (out: map<string, Member>)
    ensures out.Keys == leftDt.Keys + rightDt.Keys
    ensures forall k :: k in leftDt ==> out[k] == leftDt[k]
    ensures forall k :: k in rightDt && k !in leftDt ==> out[k] == rightDt[k]
  {
    rightDt + leftDt
  }

  /** The DEMs collected are exactly those taking part in a selected pair. */
  lemma SelectedDemsAreMembers(isect: seq<Overlap>, id: string)
    ensures id in SelectedDems(SideTable(isect, LeftSide()), SideTable(isect, RightSide()))
        <==> exists i :: 0 <= i < |isect| && (isect[i].left.demId == id || isect[i].right.demId == id)
  {
    SideTableKeys(isect, LeftSide());
    SideTableKeys(isect, RightSide());
    if exists i :: 0 <= i < |isect| && (isect[i].left.demId == id || isect[i].right.demId == id) {
      var i :| 0 <= i < |isect| && (isect[i].left.demId == id || isect[i].right.demId == id);
      assert LeftSide()(isect[i]).demId == isect[i].left.demId;
      assert RightSide()(isect[i]).demId == isect[i].right.demId;
    }
  }

  /** The four output paths, named after the footprint file's stem. */
  datatype Outputs = Outputs(pairs: string, paths: string, filepathPairs: string, winPathPairs: string)

  const FilepathPairsName: string := "filepath_pairs.txt"
  const WinPathPairsName: string := "win_path_pairs.txt"

  lemma FilepathPairsNameIsEntryName()
    ensures IsEntryName(FilepathPairsName)
  {
  }

  lemma WinPathPairsNameIsEntryName()
    ensures IsEntryName(WinPathPairsName)
  {
  }

  function OutputNames(demsP: string, outDir: string): (o: Outputs)
    ensures Basename(o.pairs) == Stem(demsP) + "_pairs.shp"
    ensures Basename(o.paths) == Stem(demsP) + "_paths.shp"
    ensures Basename(o.filepathPairs) == FilepathPairsName
    ensures Basename(o.winPathPairs) == WinPathPairsName
  {
    var stem := Stem(demsP);
    BasenameJoin(outDir, stem + "_pairs.shp");
    BasenameJoin(outDir, stem + "_paths.shp");
    FilepathPairsNameIsEntryName();
    WinPathPairsNameIsEntryName();
    BasenameJoin(outDir, FilepathPairsName);
    BasenameJoin(outDir, WinPathPairsName);
    Outputs(Join(outDir, stem + "_pairs.shp"), Join(outDir, stem + "_paths.shp"),
            Join(outDir, FilepathPairsName), Join(outDir, WinPathPairsName))
  }

  /** What `select_max_ovlp` produces, files and shapefiles as values. */
  datatype Selection = Selection(outputs: Outputs, pairs: seq<Overlap>, filepathText: string,
                                 winPathText: string, dems: map<string, Member>)

  /** `select_max_ovlp` on the overlay rows `isectRows` of the footprints at `demsP`. */
  method SelectMaxOvlp(demsP: string, outDir: string, isectRows: seq<Overlap>, n: int) returns (s: Selection)
    ensures s.outputs == OutputNames(demsP, outDir)
    ensures s.pairs == F.PySlice(SortedByOverlap(DistinctPairs(isectRows)), 0, n)
    ensures s.filepathText == F.FlatMap(s.pairs, FilepathLine)
    ensures s.winPathText == F.FlatMap(s.pairs, WinPathLine)
    ensures s.dems == SelectedDems(SideTable(s.pairs, LeftSide()), SideTable(s.pairs, RightSide()))
  {
    var outputs := OutputNames(demsP, outDir);
    var isect := SelectPairs(isectRows, n);
    var filepathText, winPathText := WritePairFiles(isect);
    var leftDt, rightDt := CollectSides(isect);
    s := Selection(outputs, isect, filepathText, winPathText, SelectedDems(leftDt, rightDt));
  }
}
