/** select_dems_: select SETSM DEM footprints for an area of interest. Rows are classified by the
    sensor that starts their pair name, filtered by stereo type, ICESat registration and
    multispectral sensor, spatially joined to the AOI, de-duplicated on the DEM id, and given the
    number of AOI geometries lying within them. Geometries and the spatial predicates stay abstract. */
module SelectDems {
  import opened Strings
  import F = Frames

  /** A shapely geometry, opaque here: only the spatial predicates look at it. */
  type Geometry = int

  /** The footprint columns the selection reads; `regSrc` is read only when the column exists. */
  datatype DemRow = DemRow(demId: string, pairname: string, regSrc: string, geom: Geometry)

  /** The spatial operations used: `sjoin`'s intersection test, `within` and `is_valid`. */
  datatype Spatial = Spatial(
    intersects: (Geometry, Geometry) -> bool,
    within: (Geometry, Geometry) -> bool,
    isValid: Geometry -> bool)

  /** The command-line flags. */
  datatype Options = Options(icesat: bool, ms: bool, xtrack: bool)

  const Sensors: seq<string> := ["IK01", "GE01", "QB01", "WV02", "WV03"]
  const MsSensors: seq<string> := ["WV02", "WV03"]

  /** `pairname.str[0:4]`. */
  function Platform(r: DemRow): string {
    Prefix(r.pairname, 4)
  }

  datatype StereoType = Intrack | Xtrack

  /** `np.where(platform.isin(sensors), 'intrack', 'xtrack')`. */
  function Stereo(r: DemRow): StereoType {
    if Platform(r) in Sensors then Intrack else Xtrack
  }

  /** A row is in-track exactly when its pair name starts with one of the five in-track sensors. */
  lemma IntrackIffSensorPrefix(r: DemRow)
    ensures Stereo(r) == Intrack <==> exists s :: s in Sensors && s <= r.pairname
  {
    if exists s :: s in Sensors && s <= r.pairname {
      var s :| s in Sensors && s <= r.pairname;
      assert |s| == 4;
      assert Platform(r) == r.pairname[..4] == s;
    }
  }

  /** Multispectral sensors are in-track sensors, so the `--ms` filter keeps only in-track rows. */
  lemma MultispectralIsIntrack(r: DemRow)
    requires Platform(r) in MsSensors
    ensures Stereo(r) == Intrack
  {
  }

  function IsIntrack(): DemRow -> bool {
    (r: DemRow) => Stereo(r) == Intrack
  }

  /** The pair names of the strip footprint registered to ICESat. */
  function IcesatPairnames(strips: seq<DemRow>): set<string> {
    set r | r in strips && r.regSrc == "ICESat" :: r.pairname
  }

  /** The ICESat filter: on the `reg_src` column when the table has one, else on the registered pair names. */
  function Registered(hasRegSrc: bool, strips: seq<DemRow>): DemRow -> bool {
    if hasRegSrc then (r: DemRow) => r.regSrc == "ICESat"
    else (r: DemRow) => r.pairname in IcesatPairnames(strips)
  }

  function IsMultispectral(): DemRow -> bool {
    (r: DemRow) => Platform(r) in MsSensors
  }

  /** All three attribute filters at once, each applying only when its flag asks for it. */
  function Passes(opts: Options, hasRegSrc: bool, strips: seq<DemRow>): DemRow -> bool {
    (r: DemRow) =>
      && (opts.xtrack || IsIntrack()(r))
      && (!opts.icesat || Registered(hasRegSrc, strips)(r))
      && (!opts.ms || IsMultispectral()(r))
  }

  function Touches(sp: Spatial, g: Geometry): Geometry -> bool {
    (a: Geometry) => sp.intersects(g, a)
  }

  /** The AOI geometries a DEM's footprint intersects. */
  function Hits(sp: Spatial, g: Geometry, aoi: seq<Geometry>): seq<Geometry> {
    F.Filter(aoi, Touches(sp, g))
  }

  /** `gpd.sjoin(dems, aoi, how='inner')`: each DEM row once per AOI geometry it intersects. */
  function Sjoin(sp: Spatial, rows: seq<DemRow>, aoi: seq<Geometry>): seq<DemRow> {
    F.FlatMap(rows, (r: DemRow) => seq(|Hits(sp, r.geom, aoi)|, _ => r))
  }

  /** `count_points`: how many AOI geometries lie within the footprint. */
  function CountPoints(sp: Spatial, g: Geometry, aoi: seq<Geometry>): nat {
    |F.Filter(aoi, (a: Geometry) => sp.within(a, g))|
  }

  /** The count is between none and all of the AOI geometries, and reaches either bound exactly when
      none or all of them lie within. */
  lemma CountPointsBounds(sp: Spatial, g: Geometry, aoi: seq<Geometry>)
    ensures CountPoints(sp, g, aoi) <= |aoi|
    ensures CountPoints(sp, g, aoi) == 0 <==> forall i :: 0 <= i < |aoi| ==> !sp.within(aoi[i], g)
    ensures CountPoints(sp, g, aoi) == |aoi| <==> forall i :: 0 <= i < |aoi| ==> sp.within(aoi[i], g)
  {
    F.FilterEmptyIff(aoi, (a: Geometry) => sp.within(a, g));
    F.FilterFullIff(aoi, (a: Geometry) => sp.within(a, g));
  }

  /** A selected DEM with its `pts_count`. */
  datatype Counted = Counted(row: DemRow, ptsCount: nat)

  function DemIdOf(r: DemRow): string {
    r.demId
  }

  function CountedId(c: Counted): string {
    c.row.demId
  }

  function ValidMask(sp: Spatial): DemRow -> bool {
    (r: DemRow) => sp.isValid(r.geom)
  }

  function WithCounts(sp: Spatial, rows: seq<DemRow>, aoi: seq<Geometry>): (r: seq<Counted>)
    ensures |r| == |rows|
    ensures forall i :: 0 <= i < |rows| ==> r[i] == Counted(rows[i], CountPoints(sp, rows[i].geom, aoi))
  {
    seq(|rows|, i requires 0 <= i < |rows| => Counted(rows[i], CountPoints(sp, rows[i].geom, aoi)))
  }

  /** The whole selection as one expression: one combined filter, the join, the de-duplications and the counts. */
  function Selected(rows: seq<DemRow>, hasRegSrc: bool, strips: seq<DemRow>, aoi: seq<Geometry>,
                    sp: Spatial, opts: Options): seq<Counted> {
    var joined := F.DropDuplicates(Sjoin(sp, F.Filter(rows, Passes(opts, hasRegSrc, strips)), aoi), DemIdOf);
    F.DropDuplicates(WithCounts(sp, F.Filter(joined, ValidMask(sp)), aoi), CountedId)
  }

  /** `select_setsm_dems` after loading: the table is narrowed filter by filter, each applied only when
      its flag asks for it, then joined, de-duplicated, checked for validity, counted and de-duplicated. */
  method SelectSetsmDems(rows: seq<DemRow>, hasRegSrc: bool, strips: seq<DemRow>, aoi: seq<Geometry>,
                         sp: Spatial, opts: Options)
    returns (dems: seq<Counted>)
    ensures dems == Selected(rows, hasRegSrc, strips, aoi, sp, opts)
  {
    var sel := rows;
    ghost var mask: DemRow -> bool := (r: DemRow) => true;
    F.FilterAllKept(rows, mask);
    if !opts.xtrack {
      ghost var next := (r: DemRow) => mask(r) && IsIntrack()(r);
      F.FilterFilter(rows, mask, IsIntrack(), next);
      sel := F.Filter(sel, IsIntrack());
      mask := next;
    }
    if opts.icesat {
      ghost var next := (r: DemRow) => mask(r) && Registered(hasRegSrc, strips)(r);
      F.FilterFilter(rows, mask, Registered(hasRegSrc, strips), next);
      if !hasRegSrc {
        var hasReg := IcesatPairnames(strips);
        sel := F.Filter(sel, (r: DemRow) => r.pairname in hasReg);
      } else {
        sel := F.Filter(sel, (r: DemRow) => r.regSrc == "ICESat");
      }
      mask := next;
    }
    if opts.ms {
      ghost var next := (r: DemRow) => mask(r) && IsMultispectral()(r);
      F.FilterFilter(rows, mask, IsMultispectral(), next);
      sel := F.Filter(sel, IsMultispectral());
      mask := next;
    }
    assert forall r :: mask(r) == Passes(opts, hasRegSrc, strips)(r);
    F.FilterFilter(rows, (r: DemRow) => true, mask, Passes(opts, hasRegSrc, strips));
    F.FilterFilter(rows, (r: DemRow) => true, Passes(opts, hasRegSrc, strips), Passes(opts, hasRegSrc, strips));
    var joined := F.DropDuplicates(Sjoin(sp, sel, aoi), DemIdOf);
    var valid := F.Filter(joined, ValidMask(sp));
    var counted := seq(|valid|, i requires 0 <= i < |valid| => Counted(valid[i], CountPoints(sp, valid[i].geom, aoi)));
    dems := F.DropDuplicates(counted, CountedId);
  }

  /** A row of the join is a filtered row that intersects some AOI geometry, and conversely. */
  lemma SjoinMembers(sp: Spatial, rows: seq<DemRow>, aoi: seq<Geometry>, r: DemRow)
    ensures r in Sjoin(sp, rows, aoi) <==> r in rows && exists a :: a in aoi && sp.intersects(r.geom, a)
  {
    var copies := (x: DemRow) => seq(|Hits(sp, x.geom, aoi)|, _ => x);
    F.FlatMapMembers(rows, copies, r);
    if r in rows && exists a :: a in aoi && sp.intersects(r.geom, a) {
      var a :| a in aoi && sp.intersects(r.geom, a);
      F.FilterMembers(aoi, Touches(sp, r.geom), a);
      var i :| 0 <= i < |rows| && rows[i] == r;
      assert |Hits(sp, r.geom, aoi)| > 0;
      assert copies(rows[i])[0] == r;
    }
    if r in Sjoin(sp, rows, aoi) {
      var i :| 0 <= i < |rows| && r in copies(rows[i]);
      assert r == rows[i];
      var h := Hits(sp, r.geom, aoi);
      assert |h| > 0;
      assert Touches(sp, r.geom)(h[0]);
      F.FilterMembers(aoi, Touches(sp, r.geom), h[0]);
    }
  }

  /** The rows surviving the filters, the join and the first de-duplication. */
  function Joined(rows: seq<DemRow>, hasRegSrc: bool, strips: seq<DemRow>, aoi: seq<Geometry>,
                  sp: Spatial, opts: Options): seq<DemRow> {
    F.DropDuplicates(Sjoin(sp, F.Filter(rows, Passes(opts, hasRegSrc, strips)), aoi), DemIdOf)
  }

  lemma JoinedRow(rows: seq<DemRow>, hasRegSrc: bool, strips: seq<DemRow>, aoi: seq<Geometry>,
                  sp: Spatial, opts: Options, x: DemRow)
    requires x in Joined(rows, hasRegSrc, strips, aoi, sp, opts)
    ensures x in rows && Passes(opts, hasRegSrc, strips)(x)
    ensures exists a :: a in aoi && sp.intersects(x.geom, a)
  {
    var sel := F.Filter(rows, Passes(opts, hasRegSrc, strips));
    F.DropDuplicatesSpec(Sjoin(sp, sel, aoi), DemIdOf);
    F.SubsequenceMembers(Joined(rows, hasRegSrc, strips, aoi, sp, opts), Sjoin(sp, sel, aoi), x);
    SjoinMembers(sp, sel, aoi, x);
    F.FilterMembers(rows, Passes(opts, hasRegSrc, strips), x);
  }

  /** A counted row comes from a valid joined row and carries that row's count. */
  lemma CountedRow(joined: seq<DemRow>, aoi: seq<Geometry>, sp: Spatial, c: Counted)
    requires c in WithCounts(sp, F.Filter(joined, ValidMask(sp)), aoi)
    ensures c.row in joined && sp.isValid(c.row.geom)
    ensures c.ptsCount == CountPoints(sp, c.row.geom, aoi)
  {
    var valid := F.Filter(joined, ValidMask(sp));
    var i :| 0 <= i < |valid| && WithCounts(sp, valid, aoi)[i] == c;
    assert c.row == valid[i];
    F.FilterMembers(joined, ValidMask(sp), c.row);
  }

  /** Every selected DEM is an input row that passes the flags' filters, intersects the AOI, has a
      valid geometry and carries its own point count. */
  lemma SelectedSound(rows: seq<DemRow>, hasRegSrc: bool, strips: seq<DemRow>, aoi: seq<Geometry>,
                      sp: Spatial, opts: Options, c: Counted)
    requires c in Selected(rows, hasRegSrc, strips, aoi, sp, opts)
    ensures c.row in rows
    ensures !opts.xtrack ==> Stereo(c.row) == Intrack
    ensures opts.icesat && hasRegSrc ==> c.row.regSrc == "ICESat"
    ensures opts.icesat && !hasRegSrc ==> c.row.pairname in IcesatPairnames(strips)
    ensures opts.ms ==> Platform(c.row) in MsSensors
    ensures exists a :: a in aoi && sp.intersects(c.row.geom, a)
    ensures sp.isValid(c.row.geom)
    ensures c.ptsCount == CountPoints(sp, c.row.geom, aoi)
  {
    var joined := Joined(rows, hasRegSrc, strips, aoi, sp, opts);
    var counted := WithCounts(sp, F.Filter(joined, ValidMask(sp)), aoi);
    F.DropDuplicatesSpec(counted, CountedId);
    F.SubsequenceMembers(F.DropDuplicates(counted, CountedId), counted, c);
    CountedRow(joined, aoi, sp, c);
    JoinedRow(rows, hasRegSrc, strips, aoi, sp, opts, c.row);
    assert !opts.xtrack ==> IsIntrack()(c.row);
    assert opts.icesat ==> Registered(hasRegSrc, strips)(c.row);
    assert opts.ms ==> IsMultispectral()(c.row);
  }

  /** No DEM id is selected twice. */
  lemma SelectedDistinct(rows: seq<DemRow>, hasRegSrc: bool, strips: seq<DemRow>, aoi: seq<Geometry>,
                         sp: Spatial, opts: Options)
    ensures F.DistinctKeys(Selected(rows, hasRegSrc, strips, aoi, sp, opts), CountedId)
  {
    var joined := Joined(rows, hasRegSrc, strips, aoi, sp, opts);
    F.DropDuplicatesSpec(WithCounts(sp, F.Filter(joined, ValidMask(sp)), aoi), CountedId);
  }

  /** When the footprint's DEM ids are unique, nothing is lost: every row that passes the filters,
      intersects the AOI and is valid is selected. */
  lemma SelectedComplete(rows: seq<DemRow>, hasRegSrc: bool, strips: seq<DemRow>, aoi: seq<Geometry>,
                         sp: Spatial, opts: Options, r: DemRow)
    requires F.DistinctKeys(rows, DemIdOf)
    requires r in rows && Passes(opts, hasRegSrc, strips)(r)
    requires exists a :: a in aoi && sp.intersects(r.geom, a)
    requires sp.isValid(r.geom)
    ensures Counted(r, CountPoints(sp, r.geom, aoi)) in Selected(rows, hasRegSrc, strips, aoi, sp, opts)
  {
    var joined := Joined(rows, hasRegSrc, strips, aoi, sp, opts);
    JoinedHasRow(rows, hasRegSrc, strips, aoi, sp, opts, r);
    var valid := F.Filter(joined, ValidMask(sp));
    var counted := WithCounts(sp, valid, aoi);
    var out := F.DropDuplicates(counted, CountedId);
    F.FilterMembers(joined, ValidMask(sp), r);
    var v :| 0 <= v < |valid| && valid[v] == r;
    F.DropDuplicatesSpec(counted, CountedId);
    var m :| 0 <= m < |out| && CountedId(out[m]) == CountedId(counted[v]);
    F.SubsequenceMembers(out, counted, out[m]);
    CountedRow(joined, aoi, sp, out[m]);
    JoinedRow(rows, hasRegSrc, strips, aoi, sp, opts, out[m].row);
    SameIdSameRow(rows, out[m].row, r);
    assert out[m] == Counted(r, CountPoints(sp, r.geom, aoi));
  }

  lemma JoinedHasRow(rows: seq<DemRow>, hasRegSrc: bool, strips: seq<DemRow>, aoi: seq<Geometry>,
                     sp: Spatial, opts: Options, r: DemRow)
    requires F.DistinctKeys(rows, DemIdOf)
    requires r in rows && Passes(opts, hasRegSrc, strips)(r)
    requires exists a :: a in aoi && sp.intersects(r.geom, a)
    ensures r in Joined(rows, hasRegSrc, strips, aoi, sp, opts)
  {
    var sel := F.Filter(rows, Passes(opts, hasRegSrc, strips));
    var sj := Sjoin(sp, sel, aoi);
    var joined := Joined(rows, hasRegSrc, strips, aoi, sp, opts);
    F.FilterMembers(rows, Passes(opts, hasRegSrc, strips), r);
    SjoinMembers(sp, sel, aoi, r);
    var k :| 0 <= k < |sj| && sj[k] == r;
    F.DropDuplicatesSpec(sj, DemIdOf);
    var j :| 0 <= j < |joined| && DemIdOf(joined[j]) == DemIdOf(sj[k]);
    JoinedRow(rows, hasRegSrc, strips, aoi, sp, opts, joined[j]);
    SameIdSameRow(rows, joined[j], r);
  }

  lemma SameIdSameRow(rows: seq<DemRow>, a: DemRow, b: DemRow)
    requires F.DistinctKeys(rows, DemIdOf)
    requires a in rows && b in rows && DemIdOf(a) == DemIdOf(b)
    ensures a == b
  {
    var i :| 0 <= i < |rows| && rows[i] == a;
    var j :| 0 <= j < |rows| && rows[j] == b;
  }
}
