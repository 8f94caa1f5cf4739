/** The local elevation tiles: which file a place is in, the cache of open tiles, and interpolation inside a tile. */
module LocalDem {
  import opened Framing
  import opened Ints
  import opened Options

  const DEM_NODATA: real := -32678.0

  /** The name of a tile's file: hemisphere and whole degrees. */
  datatype TileName = TileName(north: bool, lat: nat, east: bool, lon: nat)

  /** The tiles on disk. */
  type Disk = map<TileName, seq<byte>>

  /** An open tile; width and arc stay zero when the file has neither of the two sizes. */
  datatype Tile = Tile(blat: int, blon: int, width: nat, arc: nat, data: seq<byte>)

  function Base(lat: real, lon: real): (int, int) {
    (lat.Floor, lon.Floor)
  }

  function Abs(x: int): nat {
    if x < 0 then -x else x
  }

  function FileName(lat: real, lon: real): TileName {
    TileName(lat > 0.0, Abs(lat.Floor), lon > 0.0, Abs(lon.Floor))
  }

  /** The samples per side of a file with so many bytes; zero when it is no tile. */
  function Width(size: nat): (w: nat)
    ensures w == 0 || w == 1201 || w == 3601
    ensures w > 0 ==> 2 * w * w <= size
  {
    var ss := size / 2;
    if ss / 1201 == 1201 then 1201 else if ss / 3601 == 3601 then 3601 else 0
  }

  function Opened(disk: Disk, lat: real, lon: real): Option<Tile> {
    var name := FileName(lat, lon);
    if name !in disk then None
    else
      var w := Width(|disk[name]|);
      Some(Tile(lat.Floor, lon.Floor, w, if w == 1201 then 3 else if w == 3601 then 1 else 0, disk[name]))
  }

  /** Where the height at grid row y and column x stands in the file. */
  function Offset(t: Tile, y: int, x: int): int {
    2 * ((t.width - 1 - y) * t.width + x)
  }

  /** The height there, zero outside the file. */
  function ReadPt(t: Tile, y: int, x: int): int16 {
    var pos := Offset(t, y, x);
    if 0 <= pos && pos + 2 <= |t.data| then Int16(0x100 * t.data[pos] as int + t.data[pos + 1]) else 0
  }

  /** The whole degree with this sign and size is the last one at or below. */
  predicate IsCorner(degrees: real, positive: bool, size: nat) {
    var c: int := if positive then size else -(size as int);
    positive == (degrees > 0.0) && c as real <= degrees < c as real + 1.0
  }

  /** The file of a place is named after the south-west corner of the degree square around it, though a place on an axis
      counts as south of it or west of it. */
  lemma NameIsCorner(lat: real, lon: real)
    ensures var n := FileName(lat, lon); IsCorner(lat, n.north, n.lat) && IsCorner(lon, n.east, n.lon)
  {
  }

  // ---------- inside a tile ----------

  /** The grid line at or below a distance in seconds of arc. */
  function Grid(ds: real, arc: nat): int
    requires arc > 0
  {
    ds.Floor / arc
  }

  /** How far the distance is past that line, as a part of the grid's step. */
  function Part(ds: real, arc: nat): real
    requires arc > 0
  {
    (ds - (arc * Grid(ds, arc)) as real) / arc as real
  }

  /** The elevation at a place of the tile; None where the program divides by a zero step. */
  function Elevation(t: Tile, lat: real, lon: real): Option<real> {
    if t.arc == 0 then None
    else
      var dslat, dslon := 3600.0 * (lat - t.blat as real), 3600.0 * (lon - t.blon as real);
      var y, x := Grid(dslat, t.arc), Grid(dslon, t.arc);
      var dy, dx := Part(dslat, t.arc), Part(dslon, t.arc);
      Some(Blend(ReadPt(t, y + 1, x) as real, ReadPt(t, y + 1, x + 1) as real,
                 ReadPt(t, y, x) as real, ReadPt(t, y, x + 1) as real, dy, dx))
  }

  function Blend(e0: real, e1: real, e2: real, e3: real, dy: real, dx: real): real {
    e0 * dy * (1.0 - dx) + e1 * dy * dx + e2 * (1.0 - dy) * (1.0 - dx) + e3 * (1.0 - dy) * dx
  }

  predicate Sized(t: Tile) {
    ((t.width == 1201 && t.arc == 3) || (t.width == 3601 && t.arc == 1)) && 2 * t.width * t.width <= |t.data|
  }

  /** The place is in the tile's square. */
  predicate Covers(t: Tile, lat: real, lon: real) {
    t.blat == lat.Floor && t.blon == lon.Floor
  }

  lemma GridInside(deg: real, base: int, t: Tile)
    requires Sized(t) && base == deg.Floor
    ensures var ds := 3600.0 * (deg - base as real);
      && 0 <= Grid(ds, t.arc) && Grid(ds, t.arc) + 1 < t.width && 0.0 <= Part(ds, t.arc) < 1.0
      && (t.arc * Grid(ds, t.arc)) as real <= ds < (t.arc * (Grid(ds, t.arc) + 1)) as real
  {
    var ds := 3600.0 * (deg - base as real);
    assert 0.0 <= ds < 3600.0;
    var n := ds.Floor;
    assert 0 <= n < 3600 && n as real <= ds < n as real + 1.0;
    if t.arc == 3 {
      assert 3 * (n / 3) <= n < 3 * (n / 3) + 3;
      assert (3 * (n / 3)) as real <= n as real;
    }
  }

  lemma OffsetInside(t: Tile, y: int, x: int)
    requires Sized(t) && 0 <= y < t.width && 0 <= x < t.width
    ensures 0 <= Offset(t, y, x) && Offset(t, y, x) + 2 <= |t.data|
  {
    if t.width == 1201 {
      assert Offset(t, y, x) == 2 * ((1200 - y) * 1201 + x);
    } else {
      assert Offset(t, y, x) == 2 * ((3600 - y) * 3601 + x);
    }
  }

  function Min(a: real, b: real): real {
    if a <= b then a else b
  }

  function Max(a: real, b: real): real {
    if a >= b then a else b
  }

  function Mix(a: real, b: real, t: real): real {
    a * (1.0 - t) + b * t
  }

  lemma Between(a: real, b: real, t: real)
    requires 0.0 <= t <= 1.0
    ensures Min(a, b) <= Mix(a, b, t) <= Max(a, b)
  {
    hide Mix;
    MixIs(a, b, t);
    if a <= b {
      PartOf(b - a, t);
    } else {
      PartOf(a - b, t);
    }
  }

  lemma MixIs(a: real, b: real, t: real)
    ensures Mix(a, b, t) == a + (b - a) * t && Mix(a, b, t) == a - (a - b) * t
  {
  }

  lemma PartOf(x: real, t: real)
    requires x >= 0.0 && 0.0 <= t <= 1.0
    ensures 0.0 <= x * t <= x
  {
    assert x - x * t == x * (1.0 - t);
    NotNegative(x, t);
    NotNegative(x, 1.0 - t);
  }

  lemma NotNegative(x: real, y: real)
    requires x >= 0.0 && y >= 0.0
    ensures x * y >= 0.0
  {
  }

  lemma BlendByRows(e0: real, e1: real, e2: real, e3: real, dy: real, dx: real)
    ensures Blend(e0, e1, e2, e3, dy, dx) == Mix(Mix(e2, e3, dx), Mix(e0, e1, dx), dy)
  {
  }

  lemma BlendBetween(e0: real, e1: real, e2: real, e3: real, dy: real, dx: real)
    requires 0.0 <= dy <= 1.0 && 0.0 <= dx <= 1.0
    ensures Min(Min(e0, e1), Min(e2, e3)) <= Blend(e0, e1, e2, e3, dy, dx) <= Max(Max(e0, e1), Max(e2, e3))
  {
    hide Blend, Min, Max, Mix;
    BlendByRows(e0, e1, e2, e3, dy, dx);
    var upper, lower := Mix(e0, e1, dx), Mix(e2, e3, dx);
    Between(e0, e1, dx);
    Between(e2, e3, dx);
    Between(lower, upper, dy);
    Widens(Min(e0, e1), upper, Max(e0, e1), Min(e2, e3), lower, Max(e2, e3));
  }

  lemma Widens(a: real, x: real, b: real, c: real, y: real, d: real)
    requires a <= x <= b && c <= y <= d
    ensures Min(a, c) <= Min(y, x) && Max(y, x) <= Max(b, d)
  {
  }

  /** For a place in a tile of either size: all four grid points read are in the file and surround the place, and the
      elevation lies between the lowest and the highest of their heights. */
  lemma ElevationIsInterpolated(t: Tile, lat: real, lon: real)
    requires Sized(t) && Covers(t, lat, lon)
    ensures
      var dslat, dslon := 3600.0 * (lat - t.blat as real), 3600.0 * (lon - t.blon as real);
      var y, x := Grid(dslat, t.arc), Grid(dslon, t.arc);
      && (forall i, j | y <= i <= y + 1 && x <= j <= x + 1 :: 0 <= Offset(t, i, j) && Offset(t, i, j) + 2 <= |t.data|)
      && (t.arc * y) as real <= dslat < (t.arc * (y + 1)) as real && (t.arc * x) as real <= dslon < (t.arc * (x + 1)) as real
      && Elevation(t, lat, lon).Some?
      && Min(Min(ReadPt(t, y + 1, x) as real, ReadPt(t, y + 1, x + 1) as real),
             Min(ReadPt(t, y, x) as real, ReadPt(t, y, x + 1) as real)) <= Elevation(t, lat, lon).value
      && Elevation(t, lat, lon).value <= Max(Max(ReadPt(t, y + 1, x) as real, ReadPt(t, y + 1, x + 1) as real),
                                             Max(ReadPt(t, y, x) as real, ReadPt(t, y, x + 1) as real))
  {
    hide Grid, Part, Offset, ReadPt, Blend, Min, Max;
    GridInside(lat, t.blat, t);
    GridInside(lon, t.blon, t);
    var dslat, dslon := 3600.0 * (lat - t.blat as real), 3600.0 * (lon - t.blon as real);
    var y, x := Grid(dslat, t.arc), Grid(dslon, t.arc);
    forall i, j | y <= i <= y + 1 && x <= j <= x + 1 ensures 0 <= Offset(t, i, j) && Offset(t, i, j) + 2 <= |t.data| {
      OffsetInside(t, i, j);
    }
    BlendBetween(ReadPt(t, y + 1, x) as real, ReadPt(t, y + 1, x + 1) as real,
                 ReadPt(t, y, x) as real, ReadPt(t, y, x + 1) as real, Part(dslat, t.arc), Part(dslon, t.arc));
  }

  /** On a grid point the elevation is the height there. */
  lemma GridPointIsExact(t: Tile, lat: real, lon: real, y: int, x: int)
    requires Sized(t) && 3600.0 * (lat - t.blat as real) == (t.arc * y) as real
    requires 3600.0 * (lon - t.blon as real) == (t.arc * x) as real
    ensures Elevation(t, lat, lon) == Some(ReadPt(t, y, x) as real)
  {
    OnGrid(t.arc, y);
    OnGrid(t.arc, x);
    hide Grid, Part, Offset, ReadPt;
  }

  lemma OnGrid(arc: nat, k: int)
    requires arc == 1 || arc == 3
    ensures Grid((arc * k) as real, arc) == k && Part((arc * k) as real, arc) == 0.0
  {
    assert arc == 3 ==> (3 * k) / 3 == k;
  }

  /** A surface that is linear along rows and along columns: any four corner heights lie on one. */
  function Surface(a: real, b: real, c: real, d: real, y: real, x: real): real {
    a + b * y + (c + d * y) * x
  }

  lemma SurfaceThrough(e0: real, e1: real, e2: real, e3: real, y: real, x: real) returns (a: real, b: real, c: real, d: real)
    ensures Surface(a, b, c, d, y + 1.0, x) == e0 && Surface(a, b, c, d, y + 1.0, x + 1.0) == e1
    ensures Surface(a, b, c, d, y, x) == e2 && Surface(a, b, c, d, y, x + 1.0) == e3
  {
    d := e1 - e0 - (e3 - e2);
    c := e3 - e2 - d * y;
    b := e0 - e2 - d * x;
    a := e2 - b * y - (c + d * y) * x;
    assert (c + d * y) * (x + 1.0) == (c + d * y) * x + (e3 - e2);
    assert d * (y + 1.0) == d * y + d;
    assert (c + d * (y + 1.0)) * x == (c + d * y) * x + d * x;
    assert (c + d * (y + 1.0)) * (x + 1.0) == (c + d * y) * x + d * x + (e1 - e0);
  }

  lemma LinearMix(g: real, h: real, x: real, t: real)
    ensures Mix(g + h * x, g + h * (x + 1.0), t) == g + h * (x + t)
  {
    MixIs(g + h * x, g + h * (x + 1.0), t);
  }

  lemma SurfaceByRows(a: real, b: real, c: real, d: real, y: real, x: real, dx: real)
    ensures Mix(Surface(a, b, c, d, y, x), Surface(a, b, c, d, y, x + 1.0), dx) == Surface(a, b, c, d, y, x + dx)
  {
    LinearMix(a + b * y, c + d * y, x, dx);
  }

  lemma SurfaceByColumns(a: real, b: real, c: real, d: real, y: real, x: real, dy: real)
    ensures Mix(Surface(a, b, c, d, y, x), Surface(a, b, c, d, y + 1.0, x), dy) == Surface(a, b, c, d, y + dy, x)
  {
    LinearMix(a + c * x, b + d * x, y, dy);
    Swapped(a, b, c, d, y, x);
    Swapped(a, b, c, d, y + 1.0, x);
    Swapped(a, b, c, d, y + dy, x);
  }

  lemma Swapped(a: real, b: real, c: real, d: real, y: real, x: real)
    ensures Surface(a, b, c, d, y, x) == a + c * x + (b + d * x) * y
  {
  }

  lemma LineAndPart(ds: real, arc: nat)
    requires arc == 1 || arc == 3
    ensures ds / arc as real == Grid(ds, arc) as real + Part(ds, arc)
  {
    hide Grid;
  }

  /** Where the four heights around a place lie on such a surface, the elevation is the surface's at that very place. */
  lemma SurfaceIsExact(t: Tile, lat: real, lon: real, a: real, b: real, c: real, d: real)
    requires Sized(t) && Covers(t, lat, lon)
    requires
      var y, x := Grid(3600.0 * (lat - t.blat as real), t.arc), Grid(3600.0 * (lon - t.blon as real), t.arc);
      forall i, j | y <= i <= y + 1 && x <= j <= x + 1 :: ReadPt(t, i, j) as real == Surface(a, b, c, d, i as real, j as real)
    ensures Elevation(t, lat, lon)
      == Some(Surface(a, b, c, d, 3600.0 * (lat - t.blat as real) / t.arc as real, 3600.0 * (lon - t.blon as real) / t.arc as real))
  {
    hide Grid, Part, Offset, ReadPt, Blend, Surface, Mix;
    var dslat, dslon := 3600.0 * (lat - t.blat as real), 3600.0 * (lon - t.blon as real);
    var y, x := Grid(dslat, t.arc), Grid(dslon, t.arc);
    var dy, dx := Part(dslat, t.arc), Part(dslon, t.arc);
    LineAndPart(dslat, t.arc);
    LineAndPart(dslon, t.arc);
    var e0, e1, e2, e3 := ReadPt(t, y + 1, x) as real, ReadPt(t, y + 1, x + 1) as real, ReadPt(t, y, x) as real, ReadPt(t, y, x + 1) as real;
    BlendByRows(e0, e1, e2, e3, dy, dx);
    SurfaceByRows(a, b, c, d, y as real, x as real, dx);
    SurfaceByRows(a, b, c, d, (y + 1) as real, x as real, dx);
    SurfaceByColumns(a, b, c, d, y as real, x as real + dx, dy);
  }

  // ---------- the cache ----------

  /** What a lookup without any cache gives. */
  function Uncached(disk: Disk, lat: real, lon: real): Option<real> {
    match Opened(disk, lat, lon)
    case None => Some(DEM_NODATA)
    case Some(t) => Elevation(t, lat, lon)
  }

  /** The file, of w rows of w heights from north to south, has height h in row y from the south and column x: two bytes,
      the high one first, of a signed 16-bit number. */
  predicate HasHeight(data: seq<byte>, w: nat, y: nat, x: nat, h: int) {
    var pos := 2 * ((w - 1 - y) * w + x);
    && 0 <= pos && pos + 2 <= |data| && -0x8000 <= h < 0x8000
    && 0x100 * data[pos] as int + data[pos + 1] == if h >= 0 then h else h + 0x1_0000
  }

  /** Read from the disk: at a grid point of a file of either size the elevation is the height that the file's bytes give. */
  lemma FileHeight(disk: Disk, lat: real, lon: real, w: nat, y: nat, x: nat, h: int)
    requires (w == 1201 || w == 3601) && FileName(lat, lon) in disk && |disk[FileName(lat, lon)]| == 2 * w * w
    requires (lat - lat.Floor as real) * (w - 1) as real == y as real && (lon - lon.Floor as real) * (w - 1) as real == x as real
    requires HasHeight(disk[FileName(lat, lon)], w, y, x, h)
    ensures Uncached(disk, lat, lon) == Some(h as real)
  {
    hide FileName, Elevation, ReadPt, Width;
    var data := disk[FileName(lat, lon)];
    WidthOf(w);
    var t := Tile(lat.Floor, lon.Floor, w, if w == 1201 then 3 else 1, data);
    assert Opened(disk, lat, lon) == Some(t);
    GridPointIsExact(t, lat, lon, y, x);
    BytesAreHeight(t, y, x, h);
  }

  /** A file is taken for a tile when it holds its heights, and fewer than one row more. */
  lemma WidthExactly(size: nat)
    ensures Width(size) == 1201 <==> 2 * 1201 * 1201 <= size < 2 * 1201 * 1202
    ensures Width(size) == 3601 <==> 2 * 3601 * 3601 <= size < 2 * 3601 * 3602
  {
    assert size / 2 / 1201 == 1201 <==> 1201 * 1201 <= size / 2 < 1201 * 1202;
    assert size / 2 / 3601 == 3601 <==> 3601 * 3601 <= size / 2 < 3601 * 3602;
  }

  lemma WidthOf(w: nat)
    requires w == 1201 || w == 3601
    ensures Width(2 * w * w) == w
  {
  }

  lemma BytesAreHeight(t: Tile, y: nat, x: nat, h: int)
    requires HasHeight(t.data, t.width, y, x, h)
    ensures ReadPt(t, y, x) == h
  {
    var pos := Offset(t, y, x);
    var _, b, _ := Truncations(0x100 * t.data[pos] as int + t.data[pos + 1]);
  }

  /** Off the equator and the prime meridian a tile's name follows from its base. */
  lemma NameOfBase(lat: real, lon: real)
    requires lat != 0.0 && lon != 0.0
    ensures FileName(lat, lon) == TileName(lat.Floor >= 0, Abs(lat.Floor), lon.Floor >= 0, Abs(lon.Floor))
  {
  }

  /** An open tile is what the disk holds for its base. */
  predicate Fits(disk: Disk, t: Tile) {
    var name := TileName(t.blat >= 0, Abs(t.blat), t.blon >= 0, Abs(t.blon));
    && name in disk && t.data == disk[name]
    && t.width == Width(|disk[name]|) && t.arc == if t.width == 1201 then 3 else if t.width == 3601 then 1 else 0
  }

  /** Files are added, by downloads, but not changed. */
  predicate Extends(disk: Disk, more: Disk) {
    forall n | n in disk :: n in more && more[n] == disk[n]
  }

  /** The first open tile with a base. */
  function Find(hgts: seq<Tile>, base: (int, int)): (r: Option<Tile>)
    ensures match r
      case Some(t) => t in hgts && (t.blat, t.blon) == base
      case None => forall t | t in hgts :: (t.blat, t.blon) != base
  {
    if hgts == [] then None
    else if (hgts[0].blat, hgts[0].blon) == base then Some(hgts[0])
    else
      var r := Find(hgts[1..], base);
      assert forall t | t in hgts :: t == hgts[0] || t in hgts[1..];
      r
  }

  /** What a lookup gives with these tiles open, and the tiles open after it. */
  function Served(hgts: seq<Tile>, disk: Disk, lat: real, lon: real): Option<real> {
    match Find(hgts, Base(lat, lon))
    case Some(t) => Elevation(t, lat, lon)
    case None => Uncached(disk, lat, lon)
  }

  function Kept(hgts: seq<Tile>, disk: Disk, lat: real, lon: real): seq<Tile> {
    if Find(hgts, Base(lat, lon)).Some? then hgts
    else hgts + match Opened(disk, lat, lon) case None => [] case Some(t) => [t]
  }

  class HgtDb {
    var hgts: seq<Tile>

    constructor ()
      ensures hgts == []
    {
      hgts := [];
    }

    /** The open tiles have different bases. */
    ghost predicate Valid()
      reads this
    {
      forall i, j | 0 <= i < j < |hgts| :: (hgts[i].blat, hgts[i].blon) != (hgts[j].blat, hgts[j].blon)
    }

    /** The loop over the open tiles. */
    method FindHgt(lat: real, lon: real) returns (r: Option<Tile>)
      ensures r == Find(hgts, Base(lat, lon))
    {
      var base := Base(lat, lon);
      for i := 0 to |hgts|
        invariant Find(hgts, base) == Find(hgts[i..], base)
      {
        assert hgts[i..][1..] == hgts[i + 1..];
        if hgts[i].blat == base.0 && hgts[i].blon == base.1 {
          return Some(hgts[i]);
        }
      }
      r := None;
    }

    /** A lookup, with the disk as it is now. A tile that is open is used; another one is opened and kept. */
    method Lookup(disk: Disk, lat: real, lon: real) returns (r: Option<real>)
      requires Valid()
      modifies this
      ensures Valid() && r == Served(old(hgts), disk, lat, lon) && hgts == Kept(old(hgts), disk, lat, lon)
    {
      hide Elevation, Width, Abs;
      var found := FindHgt(lat, lon);
      if found == None {
        found := Opened(disk, lat, lon);
        if found == None {
          assert hgts + [] == hgts;
          return Some(DEM_NODATA);
        }
        hgts := hgts + [found.value];
      }
      r := Elevation(found.value, lat, lon);
    }
  }

  /** One lookup among others: the disk at that time and the place. */
  datatype Query = Query(disk: Disk, lat: real, lon: real)

  datatype Height = Height(e: real) | NoData | Panicked

  /** The height at a place without a cache, its tile being downloaded when there is none. */
  function FreshHeight(disk: Disk, more: Disk, lat: real, lon: real): Height {
    match Uncached(disk, lat, lon)
    case None => Panicked
    case Some(e) =>
      if e != DEM_NODATA then Height(e)
      else
        match Uncached(more, lat, lon)
        case None => Panicked
        case Some(f) => if f != DEM_NODATA then Height(f) else NoData
  }

  /** A lookup that downloads the tile once when there is no data; `more` is the disk after that. */
  method LookupAndCheck(db: HgtDb, disk: Disk, more: Disk, lat: real, lon: real) returns (r: Height)
    requires db.Valid() && AllFit(disk, db.hgts) && Extends(disk, more) && lat != 0.0 && lon != 0.0
    modifies db
    ensures db.Valid() && r == FreshHeight(disk, more, lat, lon)
    ensures AllFit(more, db.hgts)
  {
    hide Elevation, FileName, Width, Fits, Opened, Uncached, Extends, Find;
    ServedFresh(disk, db.hgts, lat, lon);
    var e := db.Lookup(disk, lat, lon);
    StillFit(disk, more, db.hgts);
    if e == None {
      return Panicked;
    }
    if e == Some(DEM_NODATA) {
      ServedFresh(more, db.hgts, lat, lon);
      e := db.Lookup(more, lat, lon);
      if e == None {
        return Panicked;
      }
      if e == Some(DEM_NODATA) {
        return NoData;
      }
    }
    r := Height(e.value);
  }

  /** Off the axes, with only fitting tiles open, a lookup gives what an uncached one gives and keeps them fitting. */
  lemma ServedFresh(disk: Disk, hgts: seq<Tile>, lat: real, lon: real)
    requires AllFit(disk, hgts) && lat != 0.0 && lon != 0.0
    ensures Served(hgts, disk, lat, lon) == Uncached(disk, lat, lon) && AllFit(disk, Kept(hgts, disk, lat, lon))
  {
    hide Elevation, FileName, Width, Fits, Opened, Uncached;
    match Find(hgts, Base(lat, lon))
    case Some(t) => CachedIsFresh(disk, t, lat, lon);
    case None => OpenedFits(disk, lat, lon);
  }

  /** Off the equator and the prime meridian, with files only ever added. */
  ghost predicate OffAxes(first: Disk, qs: seq<Query>) {
    && (forall k | 0 <= k < |qs| :: qs[k].lat != 0.0 && qs[k].lon != 0.0)
    && (qs != [] ==> Extends(first, qs[0].disk))
    && (forall j, k | 0 <= j < k < |qs| :: Extends(qs[j].disk, qs[k].disk))
  }

  /** Any lookups off the axes, with tiles downloaded in between: each gives what it would give without the cache. */
  method LookupAll(db: HgtDb, ghost first: Disk, qs: seq<Query>) returns (rs: seq<Option<real>>)
    requires db.Valid() && AllFit(first, db.hgts) && OffAxes(first, qs)
    modifies db
    ensures db.Valid() && |rs| == |qs| && forall k | 0 <= k < |qs| :: rs[k] == Uncached(qs[k].disk, qs[k].lat, qs[k].lon)
  {
    hide Elevation, FileName, Width, Fits, Opened, Uncached, Extends, Served, Kept;
    rs := [];
    ghost var disk := first;
    for i := 0 to |qs|
      invariant db.Valid() && AllFit(disk, db.hgts) && disk == if i == 0 then first else qs[i - 1].disk
      invariant |rs| == i && forall k | 0 <= k < i :: rs[k] == Uncached(qs[k].disk, qs[k].lat, qs[k].lon)
    {
      var q := qs[i];
      StillFit(disk, q.disk, db.hgts);
      ServedFresh(q.disk, db.hgts, q.lat, q.lon);
      var r := db.Lookup(q.disk, q.lat, q.lon);
      rs := rs + [r];
      disk := q.disk;
    }
  }

  ghost predicate AllFit(disk: Disk, hgts: seq<Tile>) {
    forall t | t in hgts :: Fits(disk, t)
  }

  lemma StillFit(disk: Disk, more: Disk, hgts: seq<Tile>)
    requires Extends(disk, more) && AllFit(disk, hgts)
    ensures AllFit(more, hgts)
  {
    hide Width, Abs;
  }

  /** Off the axes an open tile with a place's base is the one that would be opened for it. */
  lemma CachedIsFresh(disk: Disk, t: Tile, lat: real, lon: real)
    requires lat != 0.0 && lon != 0.0 && Fits(disk, t) && (t.blat, t.blon) == Base(lat, lon)
    ensures Opened(disk, lat, lon) == Some(t) && Uncached(disk, lat, lon) == Elevation(t, lat, lon)
  {
    NameOfBase(lat, lon);
    hide Elevation, Width, Abs, FileName;
  }

  lemma OpenedFits(disk: Disk, lat: real, lon: real)
    requires lat != 0.0 && lon != 0.0
    ensures match Opened(disk, lat, lon) case None => true case Some(t) => Fits(disk, t)
  {
    NameOfBase(lat, lon);
    hide Width, Abs, FileName;
  }

  /** On an axis it is otherwise: the place beside it has the same base and another file. */
  lemma AxesDiffer(lat: real, lon: real) returns (disk: Disk, lat': real, lon': real)
    requires lat == 0.0 || lon == 0.0
    ensures lat' != 0.0 && lon' != 0.0
    ensures Served(Kept([], disk, lat', lon'), disk, lat, lon) != Uncached(disk, lat, lon) == Some(DEM_NODATA)
  {
    lat', lon' := lat.Floor as real + 0.5, lon.Floor as real + 0.5;
    assert lat'.Floor == lat.Floor && lon'.Floor == lon.Floor;
    disk := StaleHit(lat, lon, lat', lon');
  }

  lemma ZeroTile()
    ensures Width(2 * 1201 * 1201) == 1201
  {
  }

  lemma FlatElevation(t: Tile, lat: real, lon: real)
    requires t.arc > 0 && forall i | 0 <= i < |t.data| :: t.data[i] == 0
    ensures Elevation(t, lat, lon) == Some(0.0)
  {
    hide Grid, Part, ReadPt, Blend;
    var dslat, dslon := 3600.0 * (lat - t.blat as real), 3600.0 * (lon - t.blon as real);
    var y, x := Grid(dslat, t.arc), Grid(dslon, t.arc);
    FlatAt(t, y + 1, x);
    FlatAt(t, y + 1, x + 1);
    FlatAt(t, y, x);
    FlatAt(t, y, x + 1);
    BlendOfZero(Part(dslat, t.arc), Part(dslon, t.arc));
  }

  lemma FlatAt(t: Tile, y: int, x: int)
    requires forall i | 0 <= i < |t.data| :: t.data[i] == 0
    ensures ReadPt(t, y, x) == 0
  {
    hide Offset;
  }

  lemma BlendOfZero(dy: real, dx: real)
    ensures Blend(0.0, 0.0, 0.0, 0.0, dy, dx) == 0.0
  {
  }

  /** A lookup after one at any other place gives what an uncached one gives, whatever the disk, if and only if the two
      places have different bases or the same file. */
  lemma FreshAfterExactly(lat: real, lon: real, lat': real, lon': real)
    ensures (forall disk: Disk :: Served(Kept([], disk, lat', lon'), disk, lat, lon) == Uncached(disk, lat, lon))
        <==> Base(lat, lon) != Base(lat', lon') || FileName(lat, lon) == FileName(lat', lon')
  {
    if Base(lat, lon) != Base(lat', lon') || FileName(lat, lon) == FileName(lat', lon') {
      forall disk: Disk ensures Served(Kept([], disk, lat', lon'), disk, lat, lon) == Uncached(disk, lat, lon) {
        KeptIsSame(disk, lat', lon', lat, lon);
      }
    } else {
      var disk := StaleHit(lat, lon, lat', lon');
    }
    hide Elevation, Uncached, Opened, Fits, Base, FileName;
  }

  lemma KeptIsSame(disk: Disk, lat': real, lon': real, lat: real, lon: real)
    requires Base(lat, lon) != Base(lat', lon') || FileName(lat, lon) == FileName(lat', lon')
    ensures Served(Kept([], disk, lat', lon'), disk, lat, lon) == Uncached(disk, lat, lon)
  {
    hide Elevation, Width, FileName;
  }

  /** A disk that holds one file, all zeros. A place with the same base but another file is served from it. */
  lemma StaleHit(lat: real, lon: real, lat': real, lon': real) returns (disk: Disk)
    requires Base(lat, lon) == Base(lat', lon') && FileName(lat, lon) != FileName(lat', lon')
    ensures Served(Kept([], disk, lat', lon'), disk, lat, lon) != Uncached(disk, lat, lon) == Some(DEM_NODATA)
  {
    hide Elevation, Width, FileName;
    var data := Zeros(2 * 1201 * 1201);
    disk := map[FileName(lat', lon') := data];
    ZeroTile();
    var t := Tile(lat'.Floor, lon'.Floor, 1201, 3, data);
    assert Opened(disk, lat', lon') == Some(t) && Kept([], disk, lat', lon') == [t];
    FlatElevation(t, lat, lon);
  }

  /** In particular, after places off the axes a lookup is transparent if and only if it is off the axes itself. */
  lemma FreshExactly(lat: real, lon: real)
    ensures (forall disk: Disk, lat': real, lon': real | lat' != 0.0 && lon' != 0.0 ::
              Served(Kept([], disk, lat', lon'), disk, lat, lon) == Uncached(disk, lat, lon))
        <==> lat != 0.0 && lon != 0.0
  {
    if lat != 0.0 && lon != 0.0 {
      forall disk: Disk, lat': real, lon': real | lat' != 0.0 && lon' != 0.0
        ensures Served(Kept([], disk, lat', lon'), disk, lat, lon) == Uncached(disk, lat, lon)
      {
        NameOfBase(lat, lon);
        NameOfBase(lat', lon');
        KeptIsSame(disk, lat', lon', lat, lon);
      }
    } else {
      var disk, lat', lon' := AxesDiffer(lat, lon);
    }
    hide Elevation, Uncached, Opened, Fits, Base, FileName;
  }
}
