// Web Mercator tiles (src/tiles.rs), over the reals: a position on one axis is a
// fraction of the world's width or height, the cell it falls into is a floor.

module Tiles {
  import opened Sorting
  import opened Words

  datatype Bounds = Bounds(minLon: real, minLat: real, maxLon: real, maxLat: real)

  datatype TileCoord = TileCoord(z: nat, x: int, y: int)

  predicate InGrid(t: TileCoord) {
    0 <= t.x < Pow2(t.z) && 0 <= t.y < Pow2(t.z)
  }

  // The latitude axis: `y` takes a latitude to its position counted from the
  // north edge of the square, `lat` takes a position back.
  datatype Projection = Projection(y: real -> real, lat: real -> real)

  ghost predicate Mercator(p: Projection) {
    && (forall a: real, b: real :: -90.0 <= a < b <= 90.0 ==> p.y(b) < p.y(a))
    && (forall t: real :: 0.0 <= t <= 1.0 ==> -90.0 < p.lat(t) < 90.0 && p.y(p.lat(t)) == t)
    && p.lat(1.0) == -p.lat(0.0)
  }

  // ------------------------------------------------------------- one axis

  function Lon(lon: real): real { (lon + 180.0) / 360.0 }

  // The cell of a position among n equal cells; `as u32` and `min` bring
  // positions outside the world to its edge.
  function Cell(t: real, n: int): (c: int)
    requires n >= 1
    ensures 0 <= c < n
  {
    var v := (t * n as real).Floor;
    if v < 0 then 0 else if v > n - 1 then n - 1 else v
  }

  // The western or northern edge of a cell.
  function Edge(c: int, n: int): real
    requires n >= 1
  {
    c as real / n as real
  }

  lemma EdgeBelow(t: real, c: int, n: int)
    requires n >= 1
    ensures Edge(c, n) <= t <==> c as real <= t * n as real
    ensures t < Edge(c, n) <==> t * n as real < c as real
    ensures t <= Edge(c, n) <==> t * n as real <= c as real
    ensures Edge(c, n) < t <==> c as real < t * n as real
  {
    var m := n as real;
    assert Edge(c, n) * m == c as real;
    if t < Edge(c, n) { assert (Edge(c, n) - t) * m > 0.0; }
    if t > Edge(c, n) { assert (t - Edge(c, n)) * m > 0.0; }
  }

  // A position is in cell c or later exactly when it is not before its edge; the
  // first cell takes everything before the world.
  lemma CellAtLeast(t: real, c: int, n: int)
    requires n >= 1 && 0 <= c < n
    ensures c <= Cell(t, n) <==> c == 0 || Edge(c, n) <= t
  {
    EdgeBelow(t, c, n);
  }

  // ... and in cell c or earlier exactly when it is before the next edge; the last
  // cell takes everything behind the world.
  lemma CellAtMost(t: real, c: int, n: int)
    requires n >= 1 && 0 <= c < n
    ensures Cell(t, n) <= c <==> c == n - 1 || t < Edge(c + 1, n)
  {
    EdgeBelow(t, c + 1, n);
  }

  lemma CellMonotone(t: real, u: real, n: int)
    requires n >= 1 && t <= u
    ensures Cell(t, n) <= Cell(u, n)
  {
    var c := Cell(t, n);
    CellAtLeast(t, c, n);
    CellAtLeast(u, c, n);
  }

  lemma EdgeHalves(c: int, n: int)
    requires n >= 1
    ensures Edge(2 * c, 2 * n) == Edge(c, n)
  {
    var m := n as real;
    assert (2 * n) as real == 2.0 * m && (2 * c) as real == 2.0 * (c as real);
    assert Edge(c, n) * (2.0 * m) == 2.0 * (c as real);
  }

  // Twice as many cells: each splits in two.
  lemma CellNests(t: real, n: int)
    requires n >= 1
    ensures Cell(t, 2 * n) / 2 == Cell(t, n)
  {
    var c := Cell(t, n);
    CellAtLeast(t, c, n);
    CellAtMost(t, c, n);
    EdgeHalves(c, n);
    EdgeHalves(c + 1, n);
    CellAtLeast(t, 2 * c, 2 * n);
    CellAtMost(t, 2 * c + 1, 2 * n);
  }

  // ------------------------------------------------------------- tiles

  datatype Range = Range(xMin: int, xMax: int, yMin: int, yMax: int)

  // `tile_range_for_bounds`: inclusive; higher latitudes have lower rows.
  function TileRange(p: Projection, b: Bounds, z: nat): Range {
    Pow2Positive(z);
    var n := Pow2(z);
    Range(Cell(Lon(b.minLon), n), Cell(Lon(b.maxLon), n), Cell(p.y(b.maxLat), n), Cell(p.y(b.minLat), n))
  }

  predicate InRange(r: Range, x: int, y: int) {
    r.xMin <= x <= r.xMax && r.yMin <= y <= r.yMax
  }

  // Whether a tile is among those of a box at the tile's zoom.
  predicate TouchesTile(p: Projection, b: Bounds, t: TileCoord) {
    InRange(TileRange(p, b, t.z), t.x, t.y)
  }

  // `TileCoord::bounds`
  function TileBounds(p: Projection, t: TileCoord): Bounds {
    Pow2Positive(t.z);
    var n := Pow2(t.z);
    Bounds(Edge(t.x, n) * 360.0 - 180.0, p.lat(Edge(t.y + 1, n)), Edge(t.x + 1, n) * 360.0 - 180.0, p.lat(Edge(t.y, n)))
  }

  predicate BoxIn(a: Bounds, b: Bounds) {
    b.minLon <= a.minLon && b.minLat <= a.minLat && a.maxLon <= b.maxLon && a.maxLat <= b.maxLat
  }

  // Closed intersection.
  predicate BoxesMeet(a: Bounds, b: Bounds) {
    a.minLon <= b.maxLon && a.maxLon >= b.minLon && a.minLat <= b.maxLat && a.maxLat >= b.minLat
  }

  predicate Ordered(b: Bounds) {
    b.minLon <= b.maxLon && -90.0 <= b.minLat <= b.maxLat <= 90.0
  }

  // `union_bounds`
  function UnionBounds(a: Bounds, b: Bounds): (u: Bounds)
    ensures BoxIn(a, u) && BoxIn(b, u)
    ensures forall c: Bounds {:trigger BoxIn(u, c)} :: BoxIn(a, c) && BoxIn(b, c) ==> BoxIn(u, c)
  {
    Bounds(if a.minLon < b.minLon then a.minLon else b.minLon, if a.minLat < b.minLat then a.minLat else b.minLat,
      if a.maxLon > b.maxLon then a.maxLon else b.maxLon, if a.maxLat > b.maxLat then a.maxLat else b.maxLat)
  }

  // `expand_bounds`
  function ExpandBounds(b: Bounds, margin: real): Bounds {
    Bounds(b.minLon - margin, b.minLat - margin, b.maxLon + margin, b.maxLat + margin)
  }

  function Parent(t: TileCoord): TileCoord
    requires t.z > 0
  {
    TileCoord(t.z - 1, t.x / 2, t.y / 2)
  }

  lemma EdgesInUnit(c: int, n: int)
    requires n >= 1 && 0 <= c <= n
    ensures 0.0 <= Edge(c, n) <= 1.0
  {
    EdgeBelow(0.0, c, n);
    EdgeBelow(1.0, c, n);
  }

  lemma EdgesOrdered(c: int, d: int, n: int)
    requires n >= 1 && c < d
    ensures Edge(c, n) < Edge(d, n)
  {
    EdgeBelow(Edge(c, n), d, n);
    assert Edge(c, n) * n as real == c as real;
  }

  // Comparing latitudes is comparing positions, the other way round.
  lemma LatAgainstPosition(p: Projection, lat: real, t: real)
    requires Mercator(p) && -90.0 <= lat <= 90.0 && 0.0 <= t <= 1.0
    ensures lat <= p.lat(t) <==> t <= p.y(lat)
    ensures p.lat(t) <= lat <==> p.y(lat) <= t
  {
    assert p.y(p.lat(t)) == t;
  }

  lemma LatDecreases(p: Projection, t: real, u: real)
    requires Mercator(p) && 0.0 <= t <= u <= 1.0
    ensures p.lat(u) <= p.lat(t)
  {
    LatAgainstPosition(p, p.lat(u), t);
    assert p.y(p.lat(u)) == u;
  }

  // A tile's envelope lies inside its parent's.
  lemma TileInsideParent(p: Projection, t: TileCoord)
    requires Mercator(p) && t.z > 0 && InGrid(t)
    ensures BoxIn(TileBounds(p, t), TileBounds(p, Parent(t)))
  {
    var n := Pow2(t.z - 1);
    Pow2Positive(t.z - 1);
    AxisInsideParent(t.x, n);
    AxisInsideParent(t.y, n);
    EdgesInUnit(t.y, 2 * n);
    EdgesInUnit(t.y + 1, 2 * n);
    EdgesInUnit(t.y / 2, n);
    EdgesInUnit(t.y / 2 + 1, n);
    LatDecreases(p, Edge(t.y / 2, n), Edge(t.y, 2 * n));
    LatDecreases(p, Edge(t.y + 1, 2 * n), Edge(t.y / 2 + 1, n));
  }

  lemma AxisInsideParent(c: int, n: int)
    requires n >= 1 && 0 <= c
    ensures Edge(c / 2, n) <= Edge(c, 2 * n) && Edge(c + 1, 2 * n) <= Edge(c / 2 + 1, n)
  {
    EdgeHalves(c / 2, n);
    EdgeHalves(c / 2 + 1, n);
    if 2 * (c / 2) < c { EdgesOrdered(2 * (c / 2), c, 2 * n); }
    if c + 1 < 2 * (c / 2 + 1) { EdgesOrdered(c + 1, 2 * (c / 2 + 1), 2 * n); }
  }

  // Meeting a tile's envelope, axis by axis.
  lemma MeetsTile(p: Projection, b: Bounds, t: TileCoord)
    requires Mercator(p) && Ordered(b) && InGrid(t)
    ensures var n := Pow2(t.z);
      n >= 1 && (BoxesMeet(b, TileBounds(p, t)) <==>
      && Lon(b.minLon) <= Edge(t.x + 1, n) && Edge(t.x, n) <= Lon(b.maxLon)
      && p.y(b.maxLat) <= Edge(t.y + 1, n) && Edge(t.y, n) <= p.y(b.minLat))
  {
    var n := Pow2(t.z);
    Pow2Positive(t.z);
    EdgesInUnit(t.y, n);
    EdgesInUnit(t.y + 1, n);
    LatAgainstPosition(p, b.minLat, Edge(t.y, n));
    LatAgainstPosition(p, b.maxLat, Edge(t.y + 1, n));
  }

  // A box reaching strictly past the tile's western and northern edges is among
  // the boxes whose tile range holds the tile.
  lemma RangeHoldsTile(p: Projection, b: Bounds, t: TileCoord)
    requires InGrid(t)
    requires Lon(b.minLon) < Edge(t.x + 1, Pow2(t.z)) && Edge(t.x, Pow2(t.z)) <= Lon(b.maxLon)
    requires p.y(b.maxLat) < Edge(t.y + 1, Pow2(t.z)) && Edge(t.y, Pow2(t.z)) <= p.y(b.minLat)
    ensures TouchesTile(p, b, t)
  {
    var n := Pow2(t.z);
    CellAtMost(Lon(b.minLon), t.x, n);
    CellAtLeast(Lon(b.maxLon), t.x, n);
    CellAtMost(p.y(b.maxLat), t.y, n);
    CellAtLeast(p.y(b.minLat), t.y, n);
  }

  // Tile ranges nest as tiles do.
  lemma RangeNests(p: Projection, b: Bounds, t: TileCoord)
    requires t.z > 0 && TouchesTile(p, b, t)
    ensures TouchesTile(p, b, Parent(t))
  {
    var n := Pow2(t.z - 1);
    Pow2Positive(t.z - 1);
    CellNests(Lon(b.minLon), n);
    CellNests(Lon(b.maxLon), n);
    CellNests(p.y(b.maxLat), n);
    CellNests(p.y(b.minLat), n);
  }

  // ------------------------------------------------------------- borders

  // A box that meets a tile only along the tile's eastern or southern edge.
  predicate Grazes(p: Projection, b: Bounds, t: TileCoord)
    requires InGrid(t)
  {
    var n := Pow2(t.z);
    (t.x < n - 1 && Lon(b.minLon) == Edge(t.x + 1, n)) || (t.y < n - 1 && p.y(b.maxLat) == Edge(t.y + 1, n))
  }

  // Meeting is closed, tile ranges are half open: they part exactly on borders.
  lemma MeetingIsTouching(p: Projection, b: Bounds, t: TileCoord)
    requires Mercator(p) && Ordered(b) && InGrid(t) && BoxesMeet(b, TileBounds(p, t))
    ensures TouchesTile(p, b, t) <==> !Grazes(p, b, t)
  {
    var n := Pow2(t.z);
    MeetsTile(p, b, t);
    CellAtMost(Lon(b.minLon), t.x, n);
    CellAtLeast(Lon(b.maxLon), t.x, n);
    CellAtMost(p.y(b.maxLat), t.y, n);
    CellAtLeast(p.y(b.minLat), t.y, n);
  }

  // A box and a tile overlap: half open to the east and south, and the outermost tiles
  // take what lies beyond the world.
  predicate Overlaps(p: Projection, b: Bounds, t: TileCoord) {
    && InGrid(t)
    && (t.x == 0 || TileBounds(p, t).minLon <= b.maxLon)
    && (t.x == Pow2(t.z) - 1 || b.minLon < TileBounds(p, t).maxLon)
    && (t.y == 0 || b.minLat <= TileBounds(p, t).maxLat)
    && (t.y == Pow2(t.z) - 1 || TileBounds(p, t).minLat < b.maxLat)
  }

  // The ranges hold exactly the tiles a box overlaps.
  lemma TouchingIsOverlap(p: Projection, b: Bounds, t: TileCoord)
    requires Mercator(p) && -90.0 <= b.minLat <= 90.0 && -90.0 <= b.maxLat <= 90.0
    ensures TouchesTile(p, b, t) <==> Overlaps(p, b, t)
  {
    Pow2Positive(t.z);
    var n := Pow2(t.z);
    if InGrid(t) {
      CellAtMost(Lon(b.minLon), t.x, n);
      CellAtLeast(Lon(b.maxLon), t.x, n);
      CellAtMost(p.y(b.maxLat), t.y, n);
      CellAtLeast(p.y(b.minLat), t.y, n);
      EdgesInUnit(t.y, n);
      EdgesInUnit(t.y + 1, n);
      LatAgainstPosition(p, b.minLat, Edge(t.y, n));
      LatAgainstPosition(p, b.maxLat, Edge(t.y + 1, n));
      hide Cell, Edge, Mercator;
    }
  }

  // A position on a border between two of n cells.
  ghost predicate OnBorder(t: real, n: int)
    requires n >= 1
  {
    exists c: int :: 0 < c < n && t == Edge(c, n)
  }

  lemma {:induction false} BordersStay(t: real, z: nat, deep: nat)
    requires z <= deep && Pow2(z) >= 1 && Pow2(deep) >= 1
    requires OnBorder(t, Pow2(z))
    ensures OnBorder(t, Pow2(deep))
  {
    if z < deep {
      Pow2Positive(deep - 1);
      BordersStay(t, z, deep - 1);
      var n := Pow2(deep - 1);
      var c :| 0 < c < n && t == Edge(c, n);
      EdgeHalves(c, n);
      assert t == Edge(2 * c, Pow2(deep));
    }
  }

  // Whether the tiles of the range hold every tile a box meets, down to a zoom.
  ghost predicate RangeCovers(p: Projection, b: Bounds, maxZoom: nat) {
    forall t: TileCoord {:trigger TouchesTile(p, b, t)} ::
      t.z <= maxZoom && InGrid(t) && BoxesMeet(b, TileBounds(p, t)) ==> TouchesTile(p, b, t)
  }

  predicate ReachesSquare(p: Projection, b: Bounds) {
    0.0 <= Lon(b.maxLon) && Lon(b.minLon) <= 1.0 && p.y(b.maxLat) <= 1.0 && 0.0 <= p.y(b.minLat)
  }

  // They do exactly when neither the western nor the northern edge of the box
  // lies on a border between tiles of the deepest zoom.
  lemma RangeCoversUnlessOnBorder(p: Projection, b: Bounds, maxZoom: nat)
    requires Mercator(p) && Ordered(b) && ReachesSquare(p, b) && Pow2(maxZoom) >= 1
    ensures RangeCovers(p, b, maxZoom) <==> !OnBorder(Lon(b.minLon), Pow2(maxZoom)) && !OnBorder(p.y(b.maxLat), Pow2(maxZoom))
  {
    var n := Pow2(maxZoom);
    if OnBorder(Lon(b.minLon), n) {
      var c :| 0 < c < n && Lon(b.minLon) == Edge(c, n);
      WestBorderMisses(p, b, maxZoom, c);
    } else if OnBorder(p.y(b.maxLat), n) {
      var c :| 0 < c < n && p.y(b.maxLat) == Edge(c, n);
      NorthBorderMisses(p, b, maxZoom, c);
    } else {
      OffBordersCovers(p, b, maxZoom);
    }
  }

  lemma OffBordersCovers(p: Projection, b: Bounds, maxZoom: nat)
    requires Mercator(p) && Ordered(b) && Pow2(maxZoom) >= 1
    requires !OnBorder(Lon(b.minLon), Pow2(maxZoom)) && !OnBorder(p.y(b.maxLat), Pow2(maxZoom))
    ensures RangeCovers(p, b, maxZoom)
  {
    forall t: TileCoord | t.z <= maxZoom && InGrid(t) && BoxesMeet(b, TileBounds(p, t))
      ensures TouchesTile(p, b, t)
    {
      NoGrazing(p, b, t, maxZoom);
      MeetingIsTouching(p, b, t);
    }
  }

  lemma NoGrazing(p: Projection, b: Bounds, t: TileCoord, maxZoom: nat)
    requires t.z <= maxZoom && InGrid(t) && Pow2(maxZoom) >= 1
    requires !OnBorder(Lon(b.minLon), Pow2(maxZoom)) && !OnBorder(p.y(b.maxLat), Pow2(maxZoom))
    ensures !Grazes(p, b, t)
  {
    var n := Pow2(t.z);
    if OnBorder(Lon(b.minLon), n) { BordersStay(Lon(b.minLon), t.z, maxZoom); }
    if OnBorder(p.y(b.maxLat), n) { BordersStay(p.y(b.maxLat), t.z, maxZoom); }
  }

  lemma WestBorderMisses(p: Projection, b: Bounds, z: nat, c: int)
    requires Mercator(p) && Ordered(b) && ReachesSquare(p, b)
    requires 0 < c < Pow2(z) && Lon(b.minLon) == Edge(c, Pow2(z))
    ensures !RangeCovers(p, b, z)
  {
    var n := Pow2(z);
    var y := Cell(p.y(b.minLat), n);
    var t := TileCoord(z, c - 1, y);
    EdgesOrdered(c - 1, c, n);
    LatAtLeast(p, b);
    CellEdges(p.y(b.minLat), p.y(b.maxLat), n);
    MeetsTile(p, b, t);
    MeetingIsTouching(p, b, t);
    assert Grazes(p, b, t);
  }

  lemma NorthBorderMisses(p: Projection, b: Bounds, z: nat, c: int)
    requires Mercator(p) && Ordered(b) && ReachesSquare(p, b)
    requires 0 < c < Pow2(z) && p.y(b.maxLat) == Edge(c, Pow2(z))
    ensures !RangeCovers(p, b, z)
  {
    var n := Pow2(z);
    var x := Cell(Lon(b.maxLon), n);
    var t := TileCoord(z, x, c - 1);
    EdgesOrdered(c - 1, c, n);
    LatAtLeast(p, b);
    CellEdges(Lon(b.maxLon), Lon(b.minLon), n);
    MeetsTile(p, b, t);
    MeetingIsTouching(p, b, t);
    assert Grazes(p, b, t);
  }

  lemma LatAtLeast(p: Projection, b: Bounds)
    requires Mercator(p) && Ordered(b)
    ensures p.y(b.maxLat) <= p.y(b.minLat)
  {}

  // The cell of an interval's far end meets the interval, when the interval
  // reaches the world.
  lemma CellEdges(far: real, near: real, n: int)
    requires n >= 1 && near <= far && 0.0 <= far && near <= 1.0
    ensures Edge(Cell(far, n), n) <= far && near <= Edge(Cell(far, n) + 1, n)
  {
    var c := Cell(far, n);
    CellAtLeast(far, c, n);
    CellAtMost(far, c, n);
    EdgeBelow(far, 0, n);
    EdgeBelow(near, n, n);
    assert Edge(0, n) == 0.0;
    assert Edge(n, n) == 1.0;
  }

  // ------------------------------------------------------------- listing tiles

  // `tiles_for_bounds`: exactly the tiles of the box's ranges, each once.
  method TilesForBounds(p: Projection, b: Bounds, minZoom: nat, maxZoom: nat) returns (tiles: seq<TileCoord>)
    ensures forall t: TileCoord :: t in tiles <==> minZoom <= t.z <= maxZoom && TouchesTile(p, b, t)
    ensures forall i, j :: 0 <= i < j < |tiles| ==> tiles[i] != tiles[j]
  {
    tiles := [];
    var z := minZoom;
    while z <= maxZoom
      invariant minZoom <= z
      invariant minZoom <= maxZoom ==> z <= maxZoom + 1
      invariant forall t: TileCoord :: t in tiles <==> minZoom <= t.z < z && t.z <= maxZoom && TouchesTile(p, b, t)
      invariant forall i, j :: 0 <= i < j < |tiles| ==> tiles[i] != tiles[j]
    {
      tiles := PushRange(tiles, z, TileRange(p, b, z));
      z := z + 1;
    }
  }

  method PushRange(before: seq<TileCoord>, z: nat, r: Range) returns (tiles: seq<TileCoord>)
    requires forall t: TileCoord :: t in before ==> t.z < z
    requires forall i, j :: 0 <= i < j < |before| ==> before[i] != before[j]
    ensures forall t: TileCoord :: t in tiles <==> t in before || (t.z == z && InRange(r, t.x, t.y))
    ensures forall i, j :: 0 <= i < j < |tiles| ==> tiles[i] != tiles[j]
  {
    tiles := before;
    var x := r.xMin;
    while x <= r.xMax
      invariant r.xMin <= x
      invariant forall t: TileCoord :: t in tiles <==> t in before || (t.z == z && t.x < x && InRange(r, t.x, t.y))
      invariant forall i, j :: 0 <= i < j < |tiles| ==> tiles[i] != tiles[j]
    {
      tiles := PushColumn(tiles, z, x, r);
      x := x + 1;
    }
  }

  method PushColumn(before: seq<TileCoord>, z: nat, x: int, r: Range) returns (tiles: seq<TileCoord>)
    requires r.xMin <= x <= r.xMax
    requires forall y: int :: TileCoord(z, x, y) !in before
    requires forall i, j :: 0 <= i < j < |before| ==> before[i] != before[j]
    ensures forall t: TileCoord :: t in tiles <==> t in before || (t.z == z && t.x == x && InRange(r, t.x, t.y))
    ensures forall i, j :: 0 <= i < j < |tiles| ==> tiles[i] != tiles[j]
  {
    tiles := before;
    var y := r.yMin;
    while y <= r.yMax
      invariant r.yMin <= y
      invariant forall t: TileCoord :: t in tiles <==> t in before || (t.z == z && t.x == x && r.yMin <= t.y < y && t.y <= r.yMax)
      invariant forall i, j :: 0 <= i < j < |tiles| ==> tiles[i] != tiles[j]
    {
      tiles := tiles + [TileCoord(z, x, y)];
      y := y + 1;
    }
  }

  // ------------------------------------------------------------- the next level

  // The order of `sort_by_key(|t| (t.x, t.y))`, all tiles having one zoom.
  predicate Before(a: TileCoord, b: TileCoord) {
    a.z < b.z || (a.z == b.z && (a.x < b.x || (a.x == b.x && a.y < b.y)))
  }

  predicate Sibling(t: TileCoord, parents: seq<TileCoord>, k: nat) {
    t.z > 0 && exists j :: 0 <= j < k <= |parents| && parents[j] == Parent(t)
  }

  // `children_within`: exactly the children whose column and row lie in the
  // extent's range, in order and without repeats.
  method ChildrenWithin(p: Projection, parents: seq<TileCoord>, extent: Bounds, ghost z: nat) returns (out: seq<TileCoord>)
    requires forall q: TileCoord :: q in parents ==> q.z == z
    ensures forall t: TileCoord :: t in out <==> t.z == z + 1 && Parent(t) in parents && TouchesTile(p, extent, t)
    ensures StrictlyInOrder(Before, out)
  {
    out := [];
    if parents == [] { return; }
    var r := TileRange(p, extent, parents[0].z + 1);
    var i := 0;
    while i < |parents|
      invariant 0 <= i <= |parents|
      invariant forall t: TileCoord :: t in out <==> t.z == z + 1 && Sibling(t, parents, i) && InRange(r, t.x, t.y)
    {
      out := PushChildren(out, parents[i], r);
      i := i + 1;
    }
    SortDedup(Before, out);
    out := Dedup(Sort(Before, out));
  }

  // The four children of one tile that lie in the range.
  method PushChildren(before: seq<TileCoord>, q: TileCoord, r: Range) returns (out: seq<TileCoord>)
    ensures forall t: TileCoord :: t in out <==> t in before || (t.z > 0 && Parent(t) == q && InRange(r, t.x, t.y))
  {
    out := before;
    var offsets := [(0, 0), (1, 0), (0, 1), (1, 1)];
    var k := 0;
    while k < 4
      invariant 0 <= k <= 4
      invariant forall t: TileCoord :: t in out <==> (t in before ||
        (t.z > 0 && Parent(t) == q && InRange(r, t.x, t.y) && t.x % 2 + 2 * (t.y % 2) < k))
    {
      var x, y := q.x * 2 + offsets[k].0, q.y * 2 + offsets[k].1;
      if InRange(r, x, y) {
        out := out + [TileCoord(q.z + 1, x, y)];
      }
      k := k + 1;
    }
  }
}
