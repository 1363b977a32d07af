// The per-connection filter (src/viewport.rs): which change events a client with a
// given part of the map on screen is sent.

module ViewFilter {
  import opened Options
  import opened Events
  import opened Tiles
  import opened Words

  datatype LonRange = LonRange(west: real, east: real)

  datatype LatRange = LatRange(south: real, north: real)

  // ------------------------------------------------------------- longitudes

  // `normalize_lon_range`
  function NormalizeLonRange(west: real, east: real): seq<LonRange> {
    var unwrapped := if west > east then east + 360.0 else east;
    if unwrapped - west >= 360.0 then [LonRange(-180.0, 180.0)]
    else
      var shift := ((west + 180.0) / 360.0).Floor as real * 360.0;
      var w, e := west - shift, unwrapped - shift;
      if e <= 180.0 then [LonRange(w, e)] else [LonRange(w, 180.0), LonRange(-180.0, e - 360.0)]
  }

  // A longitude some whole turns on.
  function Turned(lon: real, turns: int): real {
    lon + 360.0 * turns as real
  }

  predicate Within(r: LonRange, lon: real) {
    r.west <= lon <= r.east
  }

  // Whether a longitude, wherever it is written, lies in a span.
  ghost predicate Faces(r: LonRange, lon: real) {
    exists k: int :: Within(r, Turned(lon, k))
  }

  ghost predicate SomeFaces(ranges: seq<LonRange>, lon: real) {
    exists i :: 0 <= i < |ranges| && Faces(ranges[i], lon)
  }

  // The span a query asks for: eastwards from west.
  function Span(west: real, east: real): LonRange {
    LonRange(west, if west > east then east + 360.0 else east)
  }

  predicate InOrderWithin(r: LonRange) {
    -180.0 <= r.west <= r.east <= 180.0
  }

  // The ranges are in order and within the world exactly when west is at most
  // one turn past east.
  lemma RangesInOrder(west: real, east: real)
    ensures (forall i :: 0 <= i < |NormalizeLonRange(west, east)| ==> InOrderWithin(NormalizeLonRange(west, east)[i]))
      <==> west <= east + 360.0
  {
    var ranges := NormalizeLonRange(west, east);
    var turns := ((west + 180.0) / 360.0).Floor;
    assert turns as real <= (west + 180.0) / 360.0 < turns as real + 1.0;
    assert InOrderWithin(ranges[0]) ==> west <= east + 360.0;
  }

  // Within a turn after any longitude every other one comes by.
  lemma ComesBy(lon: real, west: real) returns (k: int)
    ensures west <= Turned(lon, k) < west + 360.0
  {
    k := -((lon - west) / 360.0).Floor;
  }

  lemma FullTurnFaces(r: LonRange, lon: real)
    requires r.east - r.west >= 360.0
    ensures Faces(r, lon)
  {
    var k := ComesBy(lon, r.west);
    assert Within(r, Turned(lon, k));
  }

  lemma ShiftedFaces(r: LonRange, turns: int, lon: real)
    requires Faces(r, lon)
    ensures Faces(LonRange(r.west - 360.0 * turns as real, r.east - 360.0 * turns as real), lon)
  {
    var k :| Within(r, Turned(lon, k));
    assert Turned(lon, k - turns) == Turned(lon, k) - 360.0 * turns as real;
  }

  lemma SplitFaces(w: real, e: real, lon: real)
    requires -180.0 <= w <= 180.0 < e < w + 360.0
    ensures Faces(LonRange(w, e), lon) <==> Faces(LonRange(w, 180.0), lon) || Faces(LonRange(-180.0, e - 360.0), lon)
  {
    if k :| Within(LonRange(w, e), Turned(lon, k)) {
      assert Turned(lon, k - 1) == Turned(lon, k) - 360.0;
      if Turned(lon, k) <= 180.0 { assert Within(LonRange(w, 180.0), Turned(lon, k)); }
      else { assert Within(LonRange(-180.0, e - 360.0), Turned(lon, k - 1)); }
    }
    if k :| Within(LonRange(w, 180.0), Turned(lon, k)) { assert Within(LonRange(w, e), Turned(lon, k)); }
    if k :| Within(LonRange(-180.0, e - 360.0), Turned(lon, k)) {
      assert Turned(lon, k + 1) == Turned(lon, k) + 360.0;
      assert Within(LonRange(w, e), Turned(lon, k + 1));
    }
  }

  lemma OneFaces(a: LonRange, lon: real)
    ensures SomeFaces([a], lon) <==> Faces(a, lon)
  {
    hide Faces;
    var one := [a];
    assert one[0] == a;
  }

  lemma TwoFace(a: LonRange, b: LonRange, lon: real)
    ensures SomeFaces([a, b], lon) <==> Faces(a, lon) || Faces(b, lon)
  {
    hide Faces;
    var both := [a, b];
    assert both[0] == a && both[1] == b;
  }

  // The ranges face exactly the longitudes of the span, modulo whole turns.
  lemma RangesAreExact(west: real, east: real, lon: real)
    requires west <= east + 360.0
    ensures SomeFaces(NormalizeLonRange(west, east), lon) <==> Faces(Span(west, east), lon)
  {
    hide Faces;
    var ranges, span := NormalizeLonRange(west, east), Span(west, east);
    if span.east - span.west >= 360.0 {
      FullTurnFaces(span, lon);
      FullTurnFaces(ranges[0], lon);
    } else {
      var turns := ((west + 180.0) / 360.0).Floor;
      assert turns as real <= (west + 180.0) / 360.0 < turns as real + 1.0;
      var moved := LonRange(span.west - 360.0 * turns as real, span.east - 360.0 * turns as real);
      if Faces(span, lon) { ShiftedFaces(span, turns, lon); }
      if Faces(moved, lon) { ShiftedFaces(moved, -turns, lon); }
      assert LonRange(moved.west - 360.0 * (-turns) as real, moved.east - 360.0 * (-turns) as real) == span;
      if moved.east <= 180.0 {
        OneFaces(moved, lon);
      } else {
        SplitFaces(moved.west, moved.east, lon);
        TwoFace(LonRange(moved.west, 180.0), LonRange(-180.0, moved.east - 360.0), lon);
      }
    }
  }

  // ------------------------------------------------------------- views

  datatype View = View(lonRanges: seq<LonRange>, latRange: Option<LatRange>, zoom: Option<real>, sources: Option<set<string>>)

  datatype Query = Query(bbox: Option<(real, real, real, real)>, zoom: Option<real>, sources: Option<seq<string>>)

  datatype QueryError = LatitudeOutside | SouthAboveNorth | ZoomOutside | UnknownSource(name: string)

  datatype Parsed = Accepted(view: View) | Rejected(error: QueryError)

  const MAX_CLIENT_ZOOM := 30.0

  predicate InLatitudes(lat: real) { -90.0 <= lat <= 90.0 }

  // `Viewport::parse`, once the numbers and names are read.
  method Parse(q: Query, known: set<string>) returns (r: Parsed)
    ensures r.Accepted? <==>
      && (q.bbox.Some? ==> -90.0 <= q.bbox.value.1 <= q.bbox.value.3 <= 90.0)
      && (q.zoom.Some? ==> 0.0 <= q.zoom.value <= 30.0)
      && (q.sources.Some? ==> forall n :: n in q.sources.value ==> n in known)
    ensures r.Accepted? ==>
      && r.view.zoom == q.zoom
      && (q.bbox.Some? ==> r.view.latRange == Some(LatRange(q.bbox.value.1, q.bbox.value.3)))
      && (q.bbox.Some? ==> r.view.lonRanges == NormalizeLonRange(q.bbox.value.0, q.bbox.value.2))
      && (q.bbox.None? ==> r.view.latRange.None?)
      && (r.view.sources.Some? <==> q.sources.Some? && q.sources.value != [])
      && (r.view.sources.Some? ==> r.view.sources.value == set n | n in q.sources.value)
    ensures r.Rejected? ==>
      match r.error
      case LatitudeOutside => q.bbox.Some? && !(-90.0 <= q.bbox.value.1 <= 90.0 && -90.0 <= q.bbox.value.3 <= 90.0)
      case SouthAboveNorth => q.bbox.Some? && q.bbox.value.1 > q.bbox.value.3
      case ZoomOutside => q.zoom.Some? && !(0.0 <= q.zoom.value <= 30.0)
      case UnknownSource(name) => q.sources.Some? && name in q.sources.value && name !in known
  {
    var v := View([], None, None, None);
    if q.bbox.Some? {
      var (west, south, east, north) := q.bbox.value;
      if !InLatitudes(south) || !InLatitudes(north) { return Rejected(LatitudeOutside); }
      if south > north { return Rejected(SouthAboveNorth); }
      v := v.(lonRanges := NormalizeLonRange(west, east), latRange := Some(LatRange(south, north)));
    }
    if q.zoom.Some? {
      if !(0.0 <= q.zoom.value <= MAX_CLIENT_ZOOM) { return Rejected(ZoomOutside); }
      v := v.(zoom := q.zoom);
    }
    if q.sources.Some? {
      var names := q.sources.value;
      var wanted: set<string> := {};
      var i := 0;
      while i < |names|
        invariant 0 <= i <= |names|
        invariant wanted == set n | n in names[..i]
        invariant forall n :: n in names[..i] ==> n in known
      {
        if names[i] !in known { return Rejected(UnknownSource(names[i])); }
        assert names[..i + 1] == names[..i] + [names[i]];
        wanted := wanted + {names[i]};
        i := i + 1;
      }
      assert names[..|names|] == names;
      if wanted != {} { v := v.(sources := Some(wanted)); }
      assert names != [] ==> names[0] in wanted;
    }
    r := Accepted(v);
  }

  // ------------------------------------------------------------- what a view covers

  datatype Covered = Covered(lons: seq<LonRange>, lat: LatRange)

  // `tile_zooms`: the tile zooms a map may be drawing.
  function TileZooms(zoom: real, maxZoom: nat): (nat, nat)
    requires zoom >= 0.0
  {
    var base := zoom.Floor;
    (Min(base, maxZoom), Min(base + 1, maxZoom))
  }

  // A map at a zoom draws tiles up to one zoom away, and of zooms past the source's
  // deepest the deepest.
  predicate DrawsZoom(zoom: real, maxZoom: nat, z: nat) {
    z <= maxZoom && (zoom - 1.0 < z as real <= zoom + 1.0 || (z == maxZoom && maxZoom as real <= zoom))
  }

  lemma TileZoomsMeaning(zoom: real, maxZoom: nat, z: nat)
    requires zoom >= 0.0
    ensures TileZooms(zoom, maxZoom).0 <= z <= TileZooms(zoom, maxZoom).1 <==> DrawsZoom(zoom, maxZoom, z)
  {
    var base := zoom.Floor;
    assert base as real <= zoom < base as real + 1.0;
  }

  function Clamp(lat: real, limit: real): real {
    if lat < -limit then -limit else if lat > limit then limit else lat
  }

  // One longitude range with the clamped latitudes, as a box.
  function ViewBox(p: Projection, r: LonRange, lat: LatRange): Bounds {
    var limit := p.lat(0.0);
    Bounds(r.west, Clamp(lat.south, limit), r.east, Clamp(lat.north, limit))
  }

  function GrowLat(p: Projection, lat: LatRange, z: nat): LatRange {
    Pow2Positive(z);
    var n, limit := Pow2(z), p.lat(0.0);
    var r := TileRange(p, ViewBox(p, LonRange(0.0, 0.0), lat), z);
    LatRange(if lat.south <= -limit then lat.south else p.lat(Edge(r.yMax + 1, n)),
      if lat.north >= limit then lat.north else p.lat(Edge(r.yMin, n)))
  }

  function GrowLon(p: Projection, r: LonRange, lat: LatRange, z: nat): LonRange {
    Pow2Positive(z);
    var n := Pow2(z);
    var t := TileRange(p, ViewBox(p, r, lat), z);
    LonRange(Edge(t.xMin, n) * 360.0 - 180.0, Edge(t.xMax + 1, n) * 360.0 - 180.0)
  }

  // `grow_to_tiles`
  function GrowToTiles(p: Projection, lons: seq<LonRange>, lat: LatRange, z: nat): Covered {
    Covered(seq(|lons|, i requires 0 <= i < |lons| => GrowLon(p, lons[i], lat, z)), GrowLat(p, lat, z))
  }

  function CoveredAt(p: Projection, lons: seq<LonRange>, lat: LatRange, tileZoom: Option<nat>): Covered {
    if tileZoom.None? then Covered(lons, lat) else GrowToTiles(p, lons, lat, tileZoom.value)
  }

  predicate MeetsLon(a: ChangedArea, r: LonRange) {
    a.box.minLon <= r.east && a.box.maxLon >= r.west
  }

  predicate MeetsLat(a: ChangedArea, r: LatRange) {
    a.box.minLat <= r.north && a.box.maxLat >= r.south
  }

  // `sees`
  predicate Sees(a: ChangedArea, zooms: Option<(nat, nat)>, view: Option<Covered>) {
    && (zooms.Some? ==> zooms.value.0 <= a.maxZoom && a.minZoom <= zooms.value.1)
    && (view.Some? ==> MeetsLat(a, view.value.lat) && exists i :: 0 <= i < |view.value.lons| && MeetsLon(a, view.value.lons[i]))
  }

  predicate ZoomValid(v: View) {
    v.zoom.Some? ==> v.zoom.value >= 0.0
  }

  function Zooms(v: View, maxZoom: nat): Option<(nat, nat)>
    requires ZoomValid(v)
  {
    if v.zoom.Some? then Some(TileZooms(v.zoom.value, maxZoom)) else None
  }

  function CoveredFor(p: Projection, v: View, zooms: Option<(nat, nat)>): Option<Covered> {
    if v.latRange.None? then None
    else Some(CoveredAt(p, v.lonRanges, v.latRange.value, if zooms.Some? then Some(zooms.value.0) else None))
  }

  // `wants`
  predicate Wants(p: Projection, v: View, e: TileEvent)
    requires ZoomValid(v)
  {
    && (v.sources.Some? ==> e.source in v.sources.value)
    && (e.UpdateComplete? && e.areas != [] ==>
      var zooms := Zooms(v, e.maxZoom);
      exists i :: 0 <= i < |e.areas| && Sees(e.areas[i], zooms, CoveredFor(p, v, zooms)))
  }

  // The filter of one connection: what a view covers is computed once per zoom.
  class Viewport {
    const p: Projection
    const view: View
    var covered: map<Option<nat>, Covered>

    ghost predicate Valid()
      reads this
    {
      && ZoomValid(view)
      && forall z :: z in covered ==> view.latRange.Some? && covered[z] == CoveredAt(p, view.lonRanges, view.latRange.value, z)
    }

    constructor (p: Projection, view: View)
      requires ZoomValid(view)
      ensures Valid() && this.p == p && this.view == view
    {
      this.p, this.view, covered := p, view, map[];
    }

    method CoveredView(zooms: Option<(nat, nat)>) returns (c: Option<Covered>)
      requires Valid()
      modifies this
      ensures Valid() && c == CoveredFor(p, view, zooms)
    {
      hide CoveredAt;
      if view.latRange.None? { return None; }
      var tileZoom := if zooms.Some? then Some(zooms.value.0) else None;
      if tileZoom !in covered {
        covered := covered[tileZoom := CoveredAt(p, view.lonRanges, view.latRange.value, tileZoom)];
      }
      c := Some(covered[tileZoom]);
    }

    method WantsEvent(e: TileEvent) returns (wanted: bool)
      requires Valid()
      modifies this
      ensures Valid() && wanted == Wants(p, view, e)
      ensures Mercator(p) && ViewInOrder(view) && (e.UpdateComplete? ==> forall a :: a in e.areas ==> AreaInOrder(a)) ==>
        (wanted <==> Concerns(p, view, e))
    {
      hide Mercator, ViewInOrder, AreaInOrder, Concerns;
      if Mercator(p) && ViewInOrder(view) && (e.UpdateComplete? ==> forall a :: a in e.areas ==> AreaInOrder(a)) {
        WantsMeaning(p, view, e);
      }
      hide CoveredFor, Sees, Zooms;
      if view.sources.Some? && e.source !in view.sources.value { return false; }
      if e.GenerateComplete? || e.areas == [] { return true; }
      var zooms := Zooms(view, e.maxZoom);
      var c := CoveredView(zooms);
      var i := 0;
      while i < |e.areas|
        invariant 0 <= i <= |e.areas|
        invariant Valid()
        invariant forall j :: 0 <= j < i ==> !Sees(e.areas[j], zooms, c)
      {
        if Sees(e.areas[i], zooms, c) { return true; }
        i := i + 1;
      }
      wanted := false;
    }
  }

  // ------------------------------------------------------------- soundness

  function Ancestor(t: TileCoord, z: nat): TileCoord
    requires z <= t.z
    decreases t.z - z
  {
    if t.z == z then t else Ancestor(Parent(t), z)
  }

  // A range holding a tile holds its ancestors: growing at the coarsest drawn zoom
  // contains growing at every deeper one.
  lemma {:induction false} RangeHoldsAncestor(p: Projection, b: Bounds, t: TileCoord, z: nat)
    requires z <= t.z && TouchesTile(p, b, t)
    ensures TouchesTile(p, b, Ancestor(t, z)) && Ancestor(t, z).z == z
    decreases t.z - z
  {
    if z < t.z {
      RangeNests(p, b, t);
      RangeHoldsAncestor(p, b, Parent(t), z);
    }
  }

  // Whether a view shows part of a tile.
  ghost predicate InView(p: Projection, lons: seq<LonRange>, lat: LatRange, t: TileCoord) {
    exists i :: 0 <= i < |lons| && Overlaps(p, Bounds(lons[i].west, lat.south, lons[i].east, lat.north), t)
  }

  // Holding the latitudes within the square changes nothing of that.
  lemma ClampedOverlaps(p: Projection, r: LonRange, lat: LatRange, t: TileCoord)
    requires Mercator(p)
    ensures Overlaps(p, Bounds(r.west, lat.south, r.east, lat.north), t) <==> TouchesTile(p, ViewBox(p, r, lat), t)
  {
    var limit, n := p.lat(0.0), Pow2(t.z);
    Pow2Positive(t.z);
    assert p.lat(1.0) == -limit;
    LatDecreases(p, 0.0, 1.0);
    TouchingIsOverlap(p, ViewBox(p, r, lat), t);
    if InGrid(t) {
      EdgesInUnit(t.y, n);
      EdgesInUnit(t.y + 1, n);
      EdgeBelow(0.0, t.y, n);
      EdgeBelow(1.0, t.y + 1, n);
      InsideSquare(p, Edge(t.y, n));
      InsideSquare(p, Edge(t.y + 1, n));
      hide Mercator, Edge, Cell, TouchesTile;
    }
  }

  lemma InsideSquare(p: Projection, e: real)
    requires Mercator(p) && 0.0 <= e <= 1.0
    ensures e > 0.0 ==> p.lat(e) < p.lat(0.0)
    ensures e < 1.0 ==> -p.lat(0.0) < p.lat(e)
    ensures -p.lat(0.0) <= p.lat(e) <= p.lat(0.0)
  {
    LatDecreases(p, 0.0, e);
    LatDecreases(p, e, 1.0);
    assert p.y(p.lat(e)) == e && p.y(p.lat(0.0)) == 0.0 && p.y(p.lat(1.0)) == 1.0;
  }

  // A change at some zooms alters a tile.
  predicate Alters(p: Projection, a: ChangedArea, t: TileCoord) {
    a.minZoom <= t.z <= a.maxZoom && TouchesTile(p, a.box, t)
  }

  // An area reaching the world, and the latitudes of the square or of the view.
  predicate ReachesView(p: Projection, a: ChangedArea, lat: LatRange) {
    var limit := p.lat(0.0);
    && a.box.minLon <= 180.0 && a.box.maxLon >= -180.0
    && (a.box.minLat <= limit || a.box.minLat <= lat.north)
    && (a.box.maxLat >= -limit || a.box.maxLat >= lat.south)
  }

  // Longitudes: sharing a tile, the area meets the grown range exactly when it
  // reaches the world at all.
  lemma GrownLonMeets(p: Projection, a: ChangedArea, r: LonRange, lat: LatRange, t: TileCoord)
    requires TouchesTile(p, a.box, t) && TouchesTile(p, ViewBox(p, r, lat), t)
    ensures a.box.minLon <= 180.0 && a.box.maxLon >= -180.0 ==> MeetsLon(a, GrowLon(p, r, lat, t.z))
  {
    hide Cell, Edge;
    Pow2Positive(t.z);
    var n := Pow2(t.z);
    var v := TileRange(p, ViewBox(p, r, lat), t.z);
    if a.box.minLon <= 180.0 && a.box.maxLon >= -180.0 {
      GrownWest(a.box.maxLon, v.xMin, t.x, n);
      GrownEast(a.box.minLon, v.xMax, t.x, n);
    }
  }

  lemma GrownWest(lon: real, first: int, x: int, n: int)
    requires n >= 1 && 0 <= first <= x < n && x <= Cell(Lon(lon), n) && lon >= -180.0
    ensures Edge(first, n) * 360.0 - 180.0 <= lon
  {
    CellAtLeast(Lon(lon), first, n);
  }

  lemma GrownEast(lon: real, last: int, x: int, n: int)
    requires n >= 1 && 0 <= x <= last < n && Cell(Lon(lon), n) <= x && lon <= 180.0
    ensures lon <= Edge(last + 1, n) * 360.0 - 180.0
  {
    CellAtMost(Lon(lon), last, n);
    if last == n - 1 { EdgeBelow(1.0, n, n); }
  }

  lemma GrownLonWithinWorld(p: Projection, r: LonRange, lat: LatRange, z: nat)
    ensures -180.0 <= GrowLon(p, r, lat, z).west && GrowLon(p, r, lat, z).east <= 180.0
  {
    Pow2Positive(z);
    var t := TileRange(p, ViewBox(p, r, lat), z);
    EdgesInUnit(t.xMin, Pow2(z));
    EdgesInUnit(t.xMax + 1, Pow2(z));
  }

  // Latitudes: likewise, up to the limit or the view's own edge beyond it.
  lemma GrownNorth(p: Projection, lat: real, y: int, first: int, n: int)
    requires Mercator(p) && n >= 1 && 0 <= first <= y < n && -90.0 <= lat <= 90.0
    requires y <= Cell(p.y(lat), n) && lat <= p.lat(0.0)
    ensures lat <= p.lat(Edge(first, n))
  {
    CellAtLeast(p.y(lat), first, n);
    EdgesInUnit(first, n);
    LatAgainstPosition(p, lat, Edge(first, n));
    assert Edge(0, n) == 0.0;
  }

  lemma GrownSouth(p: Projection, lat: real, y: int, last: int, n: int)
    requires Mercator(p) && n >= 1 && 0 <= y <= last < n && -90.0 <= lat <= 90.0
    requires Cell(p.y(lat), n) <= y && p.lat(1.0) <= lat
    ensures p.lat(Edge(last + 1, n)) <= lat
  {
    CellAtMost(p.y(lat), last, n);
    EdgesInUnit(last + 1, n);
    LatAgainstPosition(p, lat, Edge(last + 1, n));
    assert Edge(n, n) == 1.0;
  }

  predicate LatitudesValid(a: ChangedArea) {
    InLatitudes(a.box.minLat) && InLatitudes(a.box.maxLat)
  }

  lemma GrownLatMeets(p: Projection, a: ChangedArea, r: LonRange, lat: LatRange, t: TileCoord)
    requires Mercator(p) && LatitudesValid(a) && TouchesTile(p, a.box, t) && TouchesTile(p, ViewBox(p, r, lat), t)
    requires ReachesView(p, a, lat)
    ensures MeetsLat(a, GrowLat(p, lat, t.z))
  {
    hide Cell, Edge;
    Pow2Positive(t.z);
    assert p.lat(1.0) == -p.lat(0.0);
    var n := Pow2(t.z);
    var v := TileRange(p, ViewBox(p, r, lat), t.z);
    if lat.north < p.lat(0.0) { GrownNorth(p, a.box.minLat, t.y, v.yMin, n); }
    if lat.south > -p.lat(0.0) { GrownSouth(p, a.box.maxLat, t.y, v.yMax, n); }
  }

  lemma GrownLatWithinLimit(p: Projection, lat: LatRange, z: nat)
    requires Mercator(p)
    ensures GrowLat(p, lat, z).north <= p.lat(0.0) || GrowLat(p, lat, z).north == lat.north
    ensures GrowLat(p, lat, z).south >= -p.lat(0.0) || GrowLat(p, lat, z).south == lat.south
  {
    Pow2Positive(z);
    var n := Pow2(z);
    var r := TileRange(p, ViewBox(p, LonRange(0.0, 0.0), lat), z);
    EdgesInUnit(r.yMin, n);
    EdgesInUnit(r.yMax + 1, n);
    LatDecreases(p, 0.0, Edge(r.yMin, n));
    LatDecreases(p, Edge(r.yMax + 1, n), 1.0);
  }

  // What is seen reaches the view.
  lemma SeenReaches(p: Projection, a: ChangedArea, lons: seq<LonRange>, lat: LatRange, z: nat, zooms: (nat, nat))
    requires Mercator(p) && Sees(a, Some(zooms), Some(GrowToTiles(p, lons, lat, z)))
    ensures ReachesView(p, a, lat)
  {
    hide GrowLat, GrowLon, Mercator;
    GrownLatWithinLimit(p, lat, z);
    var i :| 0 <= i < |lons| && MeetsLon(a, GrowToTiles(p, lons, lat, z).lons[i]);
    GrownLonWithinWorld(p, lons[i], lat, z);
  }

  // A change that alters a drawn tile of the view is seen exactly when its area
  // reaches the square, or a view beyond the square's limits.
  lemma VisibleChangeIsSeen(p: Projection, lons: seq<LonRange>, lat: LatRange, zoom: real, maxZoom: nat, a: ChangedArea, t: TileCoord)
    requires Mercator(p) && zoom >= 0.0 && LatitudesValid(a)
    requires DrawsZoom(zoom, maxZoom, t.z)
    requires InView(p, lons, lat, t) && Alters(p, a, t)
    ensures var zooms := TileZooms(zoom, maxZoom);
      Sees(a, Some(zooms), Some(GrowToTiles(p, lons, lat, zooms.0))) <==> ReachesView(p, a, lat)
  {
    hide GrowLat, GrowLon, Mercator, TouchesTile, ReachesView, ViewBox, Overlaps, TileZooms, DrawsZoom;
    var zooms := TileZooms(zoom, maxZoom);
    TileZoomsMeaning(zoom, maxZoom, t.z);
    var i :| 0 <= i < |lons| && Overlaps(p, Bounds(lons[i].west, lat.south, lons[i].east, lat.north), t);
    ClampedOverlaps(p, lons[i], lat, t);
    var c := Ancestor(t, zooms.0);
    RangeHoldsAncestor(p, a.box, t, zooms.0);
    RangeHoldsAncestor(p, ViewBox(p, lons[i], lat), t, zooms.0);
    var view := GrowToTiles(p, lons, lat, zooms.0);
    if ReachesView(p, a, lat) {
      ReachesWorld(p, a, lat);
      GrownLonMeets(p, a, lons[i], lat, c);
      GrownLatMeets(p, a, lons[i], lat, c);
      assert MeetsLon(a, view.lons[i]);
    }
    if Sees(a, Some(zooms), Some(view)) { SeenReaches(p, a, lons, lat, zooms.0, zooms); }
  }

  lemma ReachesWorld(p: Projection, a: ChangedArea, lat: LatRange)
    requires ReachesView(p, a, lat)
    ensures a.box.minLon <= 180.0 && a.box.maxLon >= -180.0
  {}

  // ------------------------------------------------------------- merging hides nothing

  lemma SeesMore(a: ChangedArea, b: ChangedArea, zooms: Option<(nat, nat)>, view: Option<Covered>)
    requires Covers(b, a) && Sees(a, zooms, view)
    ensures Sees(b, zooms, view)
  {
    if view.Some? {
      var i :| 0 <= i < |view.value.lons| && MeetsLon(a, view.value.lons[i]);
      assert MeetsLon(b, view.value.lons[i]);
    }
  }

  // A viewport that wants an event wants every event that includes it.
  lemma WantsMore(p: Projection, v: View, e: TileEvent, m: TileEvent)
    requires ZoomValid(v) && Includes(m, e) && (m.UpdateComplete? ==> m.maxZoom == e.maxZoom)
    requires Wants(p, v, e)
    ensures Wants(p, v, m)
  {
    hide CoveredFor, Zooms, Sees, Covers;
    if m.UpdateComplete? && m.areas != [] {
      var zooms := Zooms(v, e.maxZoom);
      var view := CoveredFor(p, v, zooms);
      var i :| 0 <= i < |e.areas| && Sees(e.areas[i], zooms, view);
      CoversItself(e.areas[i]);
      assert Reports(e, e.areas[i]);
      var o :| o in m.areas && Covers(o, e.areas[i]);
      var j :| 0 <= j < |m.areas| && m.areas[j] == o;
      SeesMore(e.areas[i], o, zooms, view);
      assert Sees(m.areas[j], zooms, view);
    }
  }

  ghost predicate SameMaxZoom(events: seq<TileEvent>, maxZoom: nat) {
    forall e :: e in events && e.UpdateComplete? ==> e.maxZoom == maxZoom
  }

  // A viewport that wants one of a source's events wants their merge.
  lemma WantsMerge(p: Projection, v: View, events: seq<TileEvent>, source: string, maxZoom: nat, e: TileEvent)
    requires ZoomValid(v) && AllOf(events, source) && SameMaxZoom(events, maxZoom)
    requires e in events && Wants(p, v, e)
    ensures Wants(p, v, MergeAll(events))
  {
    hide Wants, Compact;
    FoldIncludesEach(events, source, e);
    FoldedParts(events);
    assert events[0] in events;
    WantsMore(p, v, e, MergeAll(events));
  }

  // An event reporting a change to a drawn tile of the view, however coarsely, is wanted.
  lemma VisibleChangeIsWanted(p: Projection, v: View, e: TileEvent, a: ChangedArea, t: TileCoord)
    requires Mercator(p) && v.zoom.Some? && v.zoom.value >= 0.0 && v.latRange.Some?
    requires v.sources.Some? ==> e.source in v.sources.value
    requires e.UpdateComplete? ==> DrawsZoom(v.zoom.value, e.maxZoom, t.z)
    requires InView(p, v.lonRanges, v.latRange.value, t) && Alters(p, a, t) && LatitudesValid(a)
    requires ReachesView(p, a, v.latRange.value) && Reports(e, a)
    ensures Wants(p, v, e)
  {
    hide GrowToTiles, Mercator, InView, Alters, ReachesView, Sees, Covers, LatitudesValid;
    if e.UpdateComplete? && e.areas != [] {
      VisibleChangeIsSeen(p, v.lonRanges, v.latRange.value, v.zoom.value, e.maxZoom, a, t);
      var o :| o in e.areas && Covers(o, a);
      var j :| 0 <= j < |e.areas| && e.areas[j] == o;
      var zooms := Zooms(v, e.maxZoom);
      SeesMore(a, o, zooms, CoveredFor(p, v, zooms));
      assert Sees(e.areas[j], zooms, CoveredFor(p, v, zooms));
    }
  }

  // So a client that draws a tile some recorded area alters wants the event of the
  // batch, however far the areas were compacted.
  lemma CompactedChangeIsWanted(p: Projection, v: View, e: TileEvent, areas: seq<ChangedArea>, a: ChangedArea, t: TileCoord)
    requires Mercator(p) && v.zoom.Some? && v.zoom.value >= 0.0 && v.latRange.Some?
    requires v.sources.Some? ==> e.source in v.sources.value
    requires e.UpdateComplete? && e.areas == Compact(areas) && a in areas
    requires DrawsZoom(v.zoom.value, e.maxZoom, t.z)
    requires InView(p, v.lonRanges, v.latRange.value, t) && Alters(p, a, t) && LatitudesValid(a)
    requires ReachesView(p, a, v.latRange.value)
    ensures Wants(p, v, e)
  {
    hide Mercator, InView, Alters, LatitudesValid, ReachesView, Wants, DrawsZoom, Compact, SomeCovers;
    CompactCovers(areas, a);
    VisibleChangeIsWanted(p, v, e, a, t);
  }

  // ------------------------------------------------------------- exactly what is wanted

  // Intervals side by side: what meets their hull meets one of them.
  lemma {:induction false} MeetsOne(f: int -> real, lo: int, hi: int, u: real, v: real) returns (x: int)
    requires lo <= hi && u <= v && u <= f(hi + 1) && f(lo) <= v
    ensures lo <= x <= hi && u <= f(x + 1) && f(x) <= v
    decreases hi - lo
  {
    if lo == hi || u > f(hi) { x := hi; } else { x := MeetsOne(f, lo, hi - 1, u, v); }
  }

  function WestEdge(n: int): int -> real
    requires n >= 1
  {
    x => Edge(x, n) * 360.0 - 180.0
  }

  function NorthEdge(p: Projection, n: int): int -> real
    requires n >= 1
  {
    y => -p.lat(Edge(y, n))
  }

  // The area and a column of tiles share a longitude, the area and a row a latitude.
  predicate MeetsColumn(a: ChangedArea, x: int, n: int)
    requires n >= 1
  {
    a.box.minLon <= Edge(x + 1, n) * 360.0 - 180.0 && Edge(x, n) * 360.0 - 180.0 <= a.box.maxLon
  }

  predicate MeetsRow(p: Projection, a: ChangedArea, y: int, n: int)
    requires n >= 1
  {
    a.box.minLat <= p.lat(Edge(y, n)) && p.lat(Edge(y + 1, n)) <= a.box.maxLat
  }

  // Between the square and the edge of a view that reaches beyond it.
  predicate MeetsStrip(p: Projection, a: ChangedArea, lat: LatRange) {
    || (p.lat(0.0) <= lat.north && a.box.minLat <= lat.north && p.lat(0.0) <= a.box.maxLat)
    || (lat.south <= -p.lat(0.0) && a.box.minLat <= -p.lat(0.0) && lat.south <= a.box.maxLat)
  }

  lemma GrownLonMeaning(p: Projection, a: ChangedArea, r: LonRange, lat: LatRange, z: nat)
    requires r.west <= r.east && a.box.minLon <= a.box.maxLon && Pow2(z) >= 1
    ensures var t := TileRange(p, ViewBox(p, r, lat), z);
      MeetsLon(a, GrowLon(p, r, lat, z)) <==> exists x :: t.xMin <= x <= t.xMax && MeetsColumn(a, x, Pow2(z))
  {
    var n, t := Pow2(z), TileRange(p, ViewBox(p, r, lat), z);
    CellMonotone(Lon(r.west), Lon(r.east), n);
    hide Cell, Edge, Clamp;
    if MeetsLon(a, GrowLon(p, r, lat, z)) {
      var x := MeetsOne(WestEdge(n), t.xMin, t.xMax, a.box.minLon, a.box.maxLon);
      assert MeetsColumn(a, x, n);
    }
    if x :| t.xMin <= x <= t.xMax && MeetsColumn(a, x, n) {
      EdgesMonotone(t.xMin, x, n);
      EdgesMonotone(x + 1, t.xMax + 1, n);
    }
  }

  lemma EdgesMonotone(c: int, d: int, n: int)
    requires n >= 1 && c <= d
    ensures Edge(c, n) <= Edge(d, n)
  {
    if c < d { EdgesOrdered(c, d, n); }
  }

  lemma RowsOfView(p: Projection, lat: LatRange, z: nat)
    requires Mercator(p) && lat.south <= lat.north && Pow2(z) >= 1
    ensures var t := TileRange(p, ViewBox(p, LonRange(0.0, 0.0), lat), z);
      && 0 <= t.yMin <= t.yMax < Pow2(z)
      && (p.lat(0.0) <= lat.north ==> t.yMin == 0)
      && (lat.south <= -p.lat(0.0) ==> t.yMax == Pow2(z) - 1)
  {
    var n, limit := Pow2(z), p.lat(0.0);
    LatDecreases(p, 0.0, 1.0);
    var box := ViewBox(p, LonRange(0.0, 0.0), lat);
    assert box.minLat <= box.maxLat && -90.0 < box.minLat && box.maxLat < 90.0;
    assert p.y(box.maxLat) <= p.y(box.minLat);
    CellMonotone(p.y(box.maxLat), p.y(box.minLat), n);
    if limit <= lat.north { assert p.y(box.maxLat) == 0.0; }
    if lat.south <= -limit {
      assert p.y(box.minLat) == 1.0;
      CellAtLeast(1.0, n - 1, n);
      EdgesInUnit(n - 1, n);
    }
  }

  // Rows one above the other.
  lemma RowsMeaning(p: Projection, a: ChangedArea, first: int, last: int, n: int)
    requires Mercator(p) && n >= 1 && 0 <= first <= last < n && a.box.minLat <= a.box.maxLat
    ensures (exists y :: first <= y <= last && MeetsRow(p, a, y, n)) <==>
      a.box.minLat <= p.lat(Edge(first, n)) && p.lat(Edge(last + 1, n)) <= a.box.maxLat
  {
    hide Edge, Mercator;
    if a.box.minLat <= p.lat(Edge(first, n)) && p.lat(Edge(last + 1, n)) <= a.box.maxLat {
      var y := MeetsOne(NorthEdge(p, n), first, last, -a.box.maxLat, -a.box.minLat);
      assert MeetsRow(p, a, y, n);
    }
    if y :| first <= y <= last && MeetsRow(p, a, y, n) {
      RowsDescend(p, first, y, n);
      RowsDescend(p, y + 1, last + 1, n);
    }
  }

  // The rows of the view, and the strips of a view that reaches beyond the square.
  lemma HullAndStrips(p: Projection, a: ChangedArea, lat: LatRange, top: real, bottom: real)
    requires -p.lat(0.0) <= bottom <= top <= p.lat(0.0) && a.box.minLat <= a.box.maxLat
    requires (p.lat(0.0) <= lat.north ==> top == p.lat(0.0)) && (lat.south <= -p.lat(0.0) ==> bottom == -p.lat(0.0))
    ensures MeetsLat(a, LatRange(if lat.south <= -p.lat(0.0) then lat.south else bottom, if lat.north >= p.lat(0.0) then lat.north else top))
      <==> MeetsStrip(p, a, lat) || (a.box.minLat <= top && bottom <= a.box.maxLat)
  {}

  lemma GrowLatIs(p: Projection, lat: LatRange, z: nat)
    requires Pow2(z) >= 1
    ensures var n, t := Pow2(z), TileRange(p, ViewBox(p, LonRange(0.0, 0.0), lat), z);
      GrowLat(p, lat, z) == LatRange(if lat.south <= -p.lat(0.0) then lat.south else p.lat(Edge(t.yMax + 1, n)),
        if lat.north >= p.lat(0.0) then lat.north else p.lat(Edge(t.yMin, n)))
  {}

  lemma RowsInSquare(p: Projection, first: int, last: int, n: int)
    requires Mercator(p) && n >= 1 && 0 <= first <= last < n
    ensures -p.lat(0.0) <= p.lat(Edge(last + 1, n)) <= p.lat(Edge(first, n)) <= p.lat(0.0)
    ensures (first == 0 ==> p.lat(Edge(first, n)) == p.lat(0.0)) && (last == n - 1 ==> p.lat(Edge(last + 1, n)) == -p.lat(0.0))
  {
    EdgesInUnit(first, n);
    EdgesInUnit(last + 1, n);
    InsideSquare(p, Edge(first, n));
    InsideSquare(p, Edge(last + 1, n));
    assert Edge(0, n) == 0.0 && Edge(n, n) == 1.0;
    assert p.lat(1.0) == -p.lat(0.0);
    hide Edge, Mercator;
    RowsDescend(p, first, last + 1, n);
  }

  lemma GrownLatMeaning(p: Projection, a: ChangedArea, lat: LatRange, z: nat)
    requires Mercator(p) && lat.south <= lat.north && a.box.minLat <= a.box.maxLat && Pow2(z) >= 1
    ensures var t := TileRange(p, ViewBox(p, LonRange(0.0, 0.0), lat), z);
      MeetsLat(a, GrowLat(p, lat, z)) <==> MeetsStrip(p, a, lat) || exists y :: t.yMin <= y <= t.yMax && MeetsRow(p, a, y, Pow2(z))
  {
    hide *;
    var n := Pow2(z);
    var t := TileRange(p, ViewBox(p, LonRange(0.0, 0.0), lat), z);
    GrowLatIs(p, lat, z);
    RowsOfView(p, lat, z);
    RowsInSquare(p, t.yMin, t.yMax, n);
    RowsMeaning(p, a, t.yMin, t.yMax, n);
    HullAndStrips(p, a, lat, p.lat(Edge(t.yMin, n)), p.lat(Edge(t.yMax + 1, n)));
  }

  lemma RowsDescend(p: Projection, c: int, d: int, n: int)
    requires Mercator(p) && n >= 1 && 0 <= c <= d <= n
    ensures p.lat(Edge(d, n)) <= p.lat(Edge(c, n))
  {
    EdgesMonotone(c, d, n);
    EdgesInUnit(c, n);
    EdgesInUnit(d, n);
    LatDecreases(p, Edge(c, n), Edge(d, n));
  }

  lemma ColumnsAndRows(p: Projection, r: LonRange, lat: LatRange, a: ChangedArea, t: TileCoord)
    requires Pow2(t.z) >= 1
    ensures var cols, rows := TileRange(p, ViewBox(p, r, lat), t.z), TileRange(p, ViewBox(p, LonRange(0.0, 0.0), lat), t.z);
      TouchesTile(p, ViewBox(p, r, lat), t) <==> cols.xMin <= t.x <= cols.xMax && rows.yMin <= t.y <= rows.yMax
    ensures MeetsColumn(a, t.x, Pow2(t.z)) <==> a.box.minLon <= TileBounds(p, t).maxLon && TileBounds(p, t).minLon <= a.box.maxLon
    ensures MeetsRow(p, a, t.y, Pow2(t.z)) <==> a.box.minLat <= TileBounds(p, t).maxLat && TileBounds(p, t).minLat <= a.box.maxLat
  {
    hide Cell, Edge, Clamp;
  }

  // The area meets, edges included, a tile the range shows part of; or, beside it, the
  // strip beyond the square.
  ghost predicate ShowsTile(p: Projection, r: LonRange, lat: LatRange, a: ChangedArea, t: TileCoord) {
    && Overlaps(p, Bounds(r.west, lat.south, r.east, lat.north), t)
    && a.box.minLon <= TileBounds(p, t).maxLon && TileBounds(p, t).minLon <= a.box.maxLon
    && ((a.box.minLat <= TileBounds(p, t).maxLat && TileBounds(p, t).minLat <= a.box.maxLat) || MeetsStrip(p, a, lat))
  }

  lemma GrownRangeMeaning(p: Projection, r: LonRange, lat: LatRange, z: nat, a: ChangedArea)
    requires Mercator(p) && r.west <= r.east && lat.south <= lat.north
    requires a.box.minLon <= a.box.maxLon && a.box.minLat <= a.box.maxLat
    ensures MeetsLon(a, GrowLon(p, r, lat, z)) && MeetsLat(a, GrowLat(p, lat, z)) <==>
      exists t: TileCoord :: t.z == z && ShowsTile(p, r, lat, a, t)
  {
    Pow2Positive(z);
    GrownLatMeaning(p, a, lat, z);
    GrownLonMeaning(p, a, r, lat, z);
    RowsOfView(p, lat, z);
    var n, cols, rows := Pow2(z), TileRange(p, ViewBox(p, r, lat), z), TileRange(p, ViewBox(p, LonRange(0.0, 0.0), lat), z);
    hide Edge, Mercator, Overlaps, ViewBox, TileRange, TouchesTile, TileBounds, MeetsStrip, GrowLon, GrowLat, MeetsLon, MeetsLat, MeetsColumn, MeetsRow;
    if MeetsLon(a, GrowLon(p, r, lat, z)) && MeetsLat(a, GrowLat(p, lat, z)) {
      var x :| cols.xMin <= x <= cols.xMax && MeetsColumn(a, x, n);
      var y := rows.yMin;
      if !MeetsStrip(p, a, lat) { y :| rows.yMin <= y <= rows.yMax && MeetsRow(p, a, y, n); }
      var t := TileCoord(z, x, y);
      ColumnsAndRows(p, r, lat, a, t);
      ClampedOverlaps(p, r, lat, t);
      assert ShowsTile(p, r, lat, a, t);
    }
    if t: TileCoord :| t.z == z && ShowsTile(p, r, lat, a, t) {
      ColumnsAndRows(p, r, lat, a, t);
      ClampedOverlaps(p, r, lat, t);
    }
  }

  ghost predicate ShowsTileOf(p: Projection, lons: seq<LonRange>, lat: LatRange, z: nat, a: ChangedArea) {
    exists i, t: TileCoord :: 0 <= i < |lons| && t.z == z && ShowsTile(p, lons[i], lat, a, t)
  }

  predicate InOrder(lons: seq<LonRange>) {
    forall i :: 0 <= i < |lons| ==> lons[i].west <= lons[i].east
  }

  // What is seen of a grown view: exactly what meets a tile it shows part of.
  lemma GrownViewMeaning(p: Projection, lons: seq<LonRange>, lat: LatRange, z: nat, a: ChangedArea)
    requires Mercator(p) && InOrder(lons) && lat.south <= lat.north
    requires a.box.minLon <= a.box.maxLon && a.box.minLat <= a.box.maxLat
    ensures Sees(a, None, Some(GrowToTiles(p, lons, lat, z))) <==> ShowsTileOf(p, lons, lat, z, a)
  {
    var view := GrowToTiles(p, lons, lat, z);
    hide Mercator, ShowsTile, GrowLon, GrowLat, MeetsLon, MeetsLat;
    forall i | 0 <= i < |lons|
      ensures MeetsLon(a, view.lons[i]) && MeetsLat(a, view.lat) <==> exists t: TileCoord :: t.z == z && ShowsTile(p, lons[i], lat, a, t)
    {
      GrownRangeMeaning(p, lons[i], lat, z, a);
    }
    if Sees(a, None, Some(view)) {
      var i :| 0 <= i < |lons| && MeetsLon(a, view.lons[i]);
      var t: TileCoord :| t.z == z && ShowsTile(p, lons[i], lat, a, t);
    }
    if ShowsTileOf(p, lons, lat, z, a) {
      var i, t: TileCoord :| 0 <= i < |lons| && t.z == z && ShowsTile(p, lons[i], lat, a, t);
      assert MeetsLon(a, view.lons[i]);
    }
  }

  // A view and areas in order: longitudes from west to east, latitudes from south to north.
  predicate ViewInOrder(v: View) {
    ZoomValid(v) && InOrder(v.lonRanges) && (v.latRange.Some? ==> v.latRange.value.south <= v.latRange.value.north)
  }

  predicate AreaInOrder(a: ChangedArea) {
    a.box.minLon <= a.box.maxLon && a.box.minLat <= a.box.maxLat && a.minZoom <= a.maxZoom
  }

  // The area changes a zoom the client may be drawing; any, if it told none.
  ghost predicate AtDrawnZoom(v: View, maxZoom: nat, a: ChangedArea) {
    v.zoom.None? || exists z: nat :: a.minZoom <= z <= a.maxZoom && DrawsZoom(v.zoom.value, maxZoom, z)
  }

  // The area meets the box asked for; with a zoom, a tile of the lowest drawn zoom that
  // the box shows part of. Without a box it may lie anywhere.
  ghost predicate InPlace(p: Projection, v: View, maxZoom: nat, a: ChangedArea) {
    v.latRange.Some? ==>
      if v.zoom.None? then
        && a.box.minLat <= v.latRange.value.north && v.latRange.value.south <= a.box.maxLat
        && exists r :: r in v.lonRanges && a.box.minLon <= r.east && r.west <= a.box.maxLon
      else
        exists z: nat :: (DrawsZoom(v.zoom.value, maxZoom, z) && (forall y: nat :: DrawsZoom(v.zoom.value, maxZoom, y) ==> z <= y)
          && ShowsTileOf(p, v.lonRanges, v.latRange.value, z, a))
  }

  // A client wants the events of its sources that rebuilt everything, told no areas, or
  // told one it may be drawing.
  ghost predicate Concerns(p: Projection, v: View, e: TileEvent) {
    && (v.sources.Some? ==> e.source in v.sources.value)
    && (e.GenerateComplete? || e.areas == []
        || exists a :: a in e.areas && AtDrawnZoom(v, e.maxZoom, a) && InPlace(p, v, e.maxZoom, a))
  }

  lemma LowestDrawn(zoom: real, maxZoom: nat, z: nat)
    requires zoom >= 0.0
    ensures z == TileZooms(zoom, maxZoom).0 <==> DrawsZoom(zoom, maxZoom, z) && forall y: nat :: DrawsZoom(zoom, maxZoom, y) ==> z <= y
  {
    hide DrawsZoom;
    TileZoomsMeaning(zoom, maxZoom, z);
    var low := TileZooms(zoom, maxZoom).0;
    TileZoomsMeaning(zoom, maxZoom, low);
    forall y: nat | DrawsZoom(zoom, maxZoom, y) ensures low <= y { TileZoomsMeaning(zoom, maxZoom, y); }
  }

  lemma AtDrawnZoomMeaning(v: View, maxZoom: nat, a: ChangedArea)
    requires ZoomValid(v) && AreaInOrder(a)
    ensures AtDrawnZoom(v, maxZoom, a) <==> Sees(a, Zooms(v, maxZoom), None)
  {
    if v.zoom.Some? {
      hide DrawsZoom;
      var zooms := TileZooms(v.zoom.value, maxZoom);
      forall z: nat ensures DrawsZoom(v.zoom.value, maxZoom, z) <==> zooms.0 <= z <= zooms.1 { TileZoomsMeaning(v.zoom.value, maxZoom, z); }
      var z := if a.minZoom < zooms.0 then zooms.0 else a.minZoom;
      if Sees(a, Some(zooms), None) { assert DrawsZoom(v.zoom.value, maxZoom, z); }
    }
  }

  lemma InPlaceMeaning(p: Projection, v: View, maxZoom: nat, a: ChangedArea)
    requires Mercator(p) && ViewInOrder(v) && AreaInOrder(a)
    ensures InPlace(p, v, maxZoom, a) <==> Sees(a, None, CoveredFor(p, v, Zooms(v, maxZoom)))
  {
    hide Mercator, DrawsZoom, GrowToTiles, ShowsTileOf;
    if v.latRange.Some? {
      if v.zoom.None? {
        forall r | r in v.lonRanges ensures exists i :: 0 <= i < |v.lonRanges| && v.lonRanges[i] == r {}
      } else {
        var low := TileZooms(v.zoom.value, maxZoom).0;
        GrownViewMeaning(p, v.lonRanges, v.latRange.value, low, a);
        forall z: nat
          ensures z == low <==> DrawsZoom(v.zoom.value, maxZoom, z) && forall y: nat :: DrawsZoom(v.zoom.value, maxZoom, y) ==> z <= y
        {
          LowestDrawn(v.zoom.value, maxZoom, z);
        }
      }
    }
  }

  // The filter lets through exactly what concerns the client.
  lemma WantsMeaning(p: Projection, v: View, e: TileEvent)
    requires Mercator(p) && ViewInOrder(v) && (e.UpdateComplete? ==> forall a :: a in e.areas ==> AreaInOrder(a))
    ensures Wants(p, v, e) <==> Concerns(p, v, e)
  {
    hide Mercator, AtDrawnZoom, InPlace, CoveredFor, Zooms, AreaInOrder, Sees;
    if e.UpdateComplete? {
      var zooms := Zooms(v, e.maxZoom);
      forall a | a in e.areas
        ensures Sees(a, zooms, CoveredFor(p, v, zooms)) <==> AtDrawnZoom(v, e.maxZoom, a) && InPlace(p, v, e.maxZoom, a)
      {
        AtDrawnZoomMeaning(v, e.maxZoom, a);
        InPlaceMeaning(p, v, e.maxZoom, a);
        SeesBoth(a, zooms, CoveredFor(p, v, zooms));
      }
    }
  }

  lemma SeesBoth(a: ChangedArea, zooms: Option<(nat, nat)>, view: Option<Covered>)
    ensures Sees(a, zooms, view) <==> Sees(a, zooms, None) && Sees(a, None, view)
  {}

  // West more than a turn past east: the one range left is inside out, and no area
  // narrower than the gap meets it, wherever the area lies.
  lemma InvertedSpanMissesNarrowAreas(west: real, east: real, a: ChangedArea)
    requires west > east + 360.0 && a.box.maxLon - a.box.minLon < west - (east + 360.0)
    ensures |NormalizeLonRange(west, east)| == 1 && !MeetsLon(a, NormalizeLonRange(west, east)[0])
  {
    var turns := ((west + 180.0) / 360.0).Floor;
    assert turns as real <= (west + 180.0) / 360.0 < turns as real + 1.0;
  }
}
