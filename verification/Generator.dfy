// The native generator's walk down the quadtree (src/generator.rs), against a scan
// of every tile.

module Generator {
  import opened Config
  import opened Database
  import opened Options
  import opened Tiles
  import opened Words

  // ------------------------------------------------------------- the data extent

  function DataExtent(extents: seq<Option<Bounds>>): Option<Bounds> {
    if extents == [] then None
    else
      var before, last := DataExtent(extents[..|extents| - 1]), extents[|extents| - 1];
      if last.None? then before
      else if before.None? then last
      else Some(UnionBounds(before.value, last.value))
  }

  method UniteExtents(extents: seq<Option<Bounds>>) returns (extent: Option<Bounds>)
    ensures extent == DataExtent(extents)
  {
    extent := None;
    var i := 0;
    while i < |extents|
      invariant 0 <= i <= |extents|
      invariant extent == DataExtent(extents[..i])
    {
      assert extents[..i + 1][..i] == extents[..i];
      if extents[i].Some? {
        extent := Some(if extent.Some? then UnionBounds(extent.value, extents[i].value) else extents[i].value);
      }
      i := i + 1;
    }
    assert extents[..|extents|] == extents;
  }

  lemma {:induction false} ExtentHolds(extents: seq<Option<Bounds>>, i: nat)
    requires i < |extents| && extents[i].Some?
    ensures DataExtent(extents).Some? && BoxIn(extents[i].value, DataExtent(extents).value)
  {
    if i < |extents| - 1 { ExtentHolds(extents[..|extents| - 1], i); }
  }

  // The tiles the walk looks at: those of the ranges of the widened extent.
  predicate InWalk(p: Projection, extents: seq<Option<Bounds>>, margin: real, t: TileCoord) {
    var extent := DataExtent(extents);
    extent.Some? && TouchesTile(p, ExpandBounds(extent.value, margin), t)
  }

  // ------------------------------------------------------------- descending

  function Pending(s: SourceConfig, z: nat, layers: seq<LayerConfig>): seq<LayerConfig> {
    if layers == [] then []
    else (if LayerMinZoom(s, layers[0]) > z then [layers[0]] else []) + Pending(s, z, layers[1..])
  }

  lemma {:induction false} PendingHolds(s: SourceConfig, z: nat, layers: seq<LayerConfig>, l: LayerConfig)
    ensures l in Pending(s, z, layers) <==> l in layers && LayerMinZoom(s, l) > z
  {
    if layers != [] {
      PendingHolds(s, z, layers[1..], l);
      assert layers == [layers[0]] + layers[1..];
    }
  }

  ghost predicate PendingHasFeatures(sp: Spatial, s: SourceConfig, db: Db, z: nat, b: Bounds) {
    exists l :: l in s.layers && LayerMinZoom(s, l) > z && HasFeatures(sp, db, l, b)
  }

  // `any_layer_has_features`
  method AnyLayerHasFeatures(sp: Spatial, db: Db, layers: seq<LayerConfig>, b: Bounds) returns (found: bool)
    ensures found <==> exists l :: l in layers && HasFeatures(sp, db, l, b)
  {
    var i := 0;
    while i < |layers|
      invariant 0 <= i <= |layers|
      invariant forall j :: 0 <= j < i ==> !HasFeatures(sp, db, layers[j], b)
    {
      if HasFeatures(sp, db, layers[i], b) { return true; }
      i := i + 1;
    }
    found := false;
  }

  // Whether the walk goes on below a tile.
  ghost predicate Descends(sp: Spatial, p: Projection, s: SourceConfig, db: Db, t: TileCoord) {
    Generated(sp, p, s, db, t).Some? || PendingHasFeatures(sp, s, db, t.z, TileBounds(p, t))
  }

  // Whether some layer not yet past its range has features in a tile.
  ghost predicate Wanted(sp: Spatial, p: Projection, s: SourceConfig, db: Db, t: TileCoord) {
    exists l :: l in s.layers && t.z <= LayerMaxZoom(s, l) && HasFeatures(sp, db, l, TileBounds(p, t))
  }

  lemma GeneratedIsWanted(sp: Spatial, p: Projection, s: SourceConfig, db: Db, t: TileCoord)
    requires Generated(sp, p, s, db, t).Some?
    ensures Wanted(sp, p, s, db, t)
  {
    hide HasFeatures, Generated;
    GeneratedWhenShown(sp, p, s, db, t);
  }

  lemma FeaturesInParent(sp: Spatial, p: Projection, db: Db, l: LayerConfig, t: TileCoord)
    requires SpatialLaws(sp) && Mercator(p) && t.z > 0 && InGrid(t)
    requires HasFeatures(sp, db, l, TileBounds(p, t))
    ensures HasFeatures(sp, db, l, TileBounds(p, Parent(t)))
  {
    hide Mercator;
    TileInsideParent(p, t);
    var id :| id in RowsOf(db, l.name) && Probed(sp, l, RowsOf(db, l.name)[id], TileBounds(p, t));
    assert Probed(sp, l, RowsOf(db, l.name)[id], TileBounds(p, Parent(t)));
  }

  // Above a wanted tile the walk goes on.
  lemma ParentDescends(sp: Spatial, p: Projection, s: SourceConfig, db: Db, t: TileCoord)
    requires SpatialLaws(sp) && Mercator(p) && t.z > 0 && InGrid(t) && Wanted(sp, p, s, db, t)
    ensures Wanted(sp, p, s, db, Parent(t)) && Descends(sp, p, s, db, Parent(t))
  {
    hide HasFeatures, Generated, Mercator, SpatialLaws;
    var l :| l in s.layers && t.z <= LayerMaxZoom(s, l) && HasFeatures(sp, db, l, TileBounds(p, t));
    FeaturesInParent(sp, p, db, l, t);
    GeneratedWhenShown(sp, p, s, db, Parent(t));
  }

  // ------------------------------------------------------------- the walk

  // The store after a level: its tiles with content are there, the rest as before.
  ghost predicate LevelStored(sp: Spatial, p: Projection, s: SourceConfig, db: Db, level: seq<TileCoord>, before: Store, store: Store) {
    forall t: TileCoord :: (StoredTile(store, t) ==
      if t in level && Generated(sp, p, s, db, t).Some? then Generated(sp, p, s, db, t) else StoredTile(before, t))
  }

  // One zoom: every tile of the level is fetched and, when it has content, stored.
  method WalkLevel(sp: Spatial, p: Projection, s: SourceConfig, db: Db, z: nat, level: seq<TileCoord>, before: Store)
    returns (store: Store, expand: seq<TileCoord>)
    requires forall t :: t in level ==> t.z == z
    ensures LevelStored(sp, p, s, db, level, before, store)
    ensures forall t: TileCoord :: t in expand <==> t in level && Descends(sp, p, s, db, t)
  {
    hide HasFeatures, Assemble, Fetches, TileBounds;
    var active := ListTileLayers(s, z);
    var pending := Pending(s, z, s.layers);
    forall l ensures l in pending <==> l in s.layers && LayerMinZoom(s, l) > z { PendingHolds(s, z, s.layers, l); }
    store, expand := before, [];
    var i := 0;
    while i < |level|
      invariant 0 <= i <= |level|
      invariant LevelStored(sp, p, s, db, level[..i], before, store)
      invariant forall t: TileCoord :: t in expand <==> t in level[..i] && Descends(sp, p, s, db, t)
    {
      var tile := level[i];
      var features := FetchTileFeatures(sp, db, active, TileBounds(p, tile));
      var descend := features != map[];
      if descend {
        store := store[tile := features];
      } else {
        descend := AnyLayerHasFeatures(sp, db, pending, TileBounds(p, tile));
      }
      if descend { expand := expand + [tile]; }
      assert level[..i + 1] == level[..i] + [tile];
      i := i + 1;
    }
    assert level[..|level|] == level;
  }

  // What the walk has to have done before zoom z.
  ghost predicate DoneBelow(sp: Spatial, p: Projection, s: SourceConfig, db: Db, extent: Bounds, z: nat, store: Store) {
    forall t: TileCoord :: StoredTile(store, t) ==
      if s.minZoom <= t.z < z && TouchesTile(p, extent, t) then Generated(sp, p, s, db, t) else None
  }

  // The level of zoom z: within the extent's range, and all that is wanted there.
  ghost predicate LevelOf(sp: Spatial, p: Projection, s: SourceConfig, db: Db, extent: Bounds, z: nat, level: seq<TileCoord>) {
    && (forall t :: t in level ==> t.z == z && TouchesTile(p, extent, t))
    && (forall t: TileCoord :: t.z == z && TouchesTile(p, extent, t) && Wanted(sp, p, s, db, t) ==> t in level)
  }

  lemma TouchedIsInGrid(p: Projection, b: Bounds, t: TileCoord)
    requires TouchesTile(p, b, t)
    ensures InGrid(t)
  {}

  lemma LevelDone(sp: Spatial, p: Projection, s: SourceConfig, db: Db, extent: Bounds, z: nat, level: seq<TileCoord>,
                  before: Store, store: Store)
    requires s.minZoom <= z && LevelOf(sp, p, s, db, extent, z, level) && DoneBelow(sp, p, s, db, extent, z, before)
    requires LevelStored(sp, p, s, db, level, before, store)
    ensures DoneBelow(sp, p, s, db, extent, z + 1, store)
  {
    hide Wanted, Generated, TouchesTile, StoredTile;
    forall t: TileCoord
      ensures StoredTile(store, t) ==
        if s.minZoom <= t.z < z + 1 && TouchesTile(p, extent, t) then Generated(sp, p, s, db, t) else None
    {
      if Generated(sp, p, s, db, t).Some? { GeneratedIsWanted(sp, p, s, db, t); }
    }
  }

  lemma NextLevel(sp: Spatial, p: Projection, s: SourceConfig, db: Db, extent: Bounds, z: nat,
                  level: seq<TileCoord>, expand: seq<TileCoord>, next: seq<TileCoord>)
    requires SpatialLaws(sp) && Mercator(p) && LevelOf(sp, p, s, db, extent, z, level)
    requires forall t: TileCoord :: t in expand <==> t in level && Descends(sp, p, s, db, t)
    requires forall t: TileCoord :: t in next <==> t.z == z + 1 && Parent(t) in expand && TouchesTile(p, extent, t)
    ensures LevelOf(sp, p, s, db, extent, z + 1, next)
  {
    hide Wanted, Descends, TouchesTile, SpatialLaws, Mercator;
    forall t: TileCoord | t.z == z + 1 && TouchesTile(p, extent, t) && Wanted(sp, p, s, db, t)
      ensures t in next
    {
      TouchedIsInGrid(p, extent, t);
      ParentDescends(sp, p, s, db, t);
      RangeNests(p, extent, t);
    }
  }

  // Below an empty level nothing is wanted.
  lemma {:induction false} NothingDeeper(sp: Spatial, p: Projection, s: SourceConfig, db: Db, extent: Bounds, z: nat, t: TileCoord)
    requires SpatialLaws(sp) && Mercator(p) && LevelOf(sp, p, s, db, extent, z, [])
    requires t.z >= z && TouchesTile(p, extent, t)
    ensures !Wanted(sp, p, s, db, t) && Generated(sp, p, s, db, t).None?
    decreases t.z
  {
    hide Wanted, Descends, TouchesTile, SpatialLaws, Mercator, Generated;
    TouchedIsInGrid(p, extent, t);
    if t.z > z {
      RangeNests(p, extent, t);
      NothingDeeper(sp, p, s, db, extent, z, Parent(t));
      if Wanted(sp, p, s, db, t) { ParentDescends(sp, p, s, db, t); }
    }
    if Generated(sp, p, s, db, t).Some? { GeneratedIsWanted(sp, p, s, db, t); }
  }

  lemma EmptyLevelIsDone(sp: Spatial, p: Projection, s: SourceConfig, db: Db, extent: Bounds, z: nat, store: Store)
    requires SpatialLaws(sp) && Mercator(p) && LevelOf(sp, p, s, db, extent, z, [])
    requires z <= s.maxZoom && DoneBelow(sp, p, s, db, extent, z, store)
    ensures DoneBelow(sp, p, s, db, extent, s.maxZoom + 1, store)
  {
    hide Wanted, Generated, TouchesTile, StoredTile, SpatialLaws, Mercator;
    forall t: TileCoord
      ensures StoredTile(store, t) ==
        if s.minZoom <= t.z < s.maxZoom + 1 && TouchesTile(p, extent, t) then Generated(sp, p, s, db, t) else None
    {
      if t.z >= z && TouchesTile(p, extent, t) { NothingDeeper(sp, p, s, db, extent, z, t); }
    }
  }

  // The tiles a scan of the source's zooms stores, cut down to the walk's ranges.
  ghost predicate ScanWithin(sp: Spatial, p: Projection, s: SourceConfig, db: Db, extents: seq<Option<Bounds>>, margin: real, store: Store) {
    forall t: TileCoord :: StoredTile(store, t) ==
      if s.minZoom <= t.z <= s.maxZoom && InWalk(p, extents, margin, t) then Generated(sp, p, s, db, t) else None
  }

  lemma WalkDone(sp: Spatial, p: Projection, s: SourceConfig, db: Db, extents: seq<Option<Bounds>>, margin: real, z: nat, store: Store)
    requires DataExtent(extents).Some?
    requires z == s.maxZoom + 1 || (s.minZoom > s.maxZoom && z >= s.minZoom && store == map[])
    requires DoneBelow(sp, p, s, db, ExpandBounds(DataExtent(extents).value, margin), z, store)
    ensures ScanWithin(sp, p, s, db, extents, margin, store)
  {
    hide Generated, TouchesTile, DataExtent;
  }

  // `generate_with_native`: for any rows, zoom ranges, extent and margin, the walk
  // stores exactly what generating every tile of the extent's ranges would.
  method GenerateWithNative(sp: Spatial, p: Projection, s: SourceConfig, db: Db, extents: seq<Option<Bounds>>, margin: real)
    returns (store: Store)
    requires SpatialLaws(sp) && Mercator(p)
    ensures ScanWithin(sp, p, s, db, extents, margin, store)
    ensures NamesApart(s) ==> forall t :: t in store ==> StoredShows(sp, p, s, db, store, t)
  {
    hide SpatialLaws, Mercator, Generated, TouchesTile, Wanted, Descends, DataExtent, NamesApart, StoredShows;
    store := map[];
    var found := UniteExtents(extents);
    if found.None? { return; }
    var extent := ExpandBounds(found.value, margin);
    var level := TilesForBounds(p, extent, s.minZoom, s.minZoom);
    var z := s.minZoom;
    while z <= s.maxZoom
      invariant s.minZoom <= z && (s.minZoom <= s.maxZoom ==> z <= s.maxZoom + 1)
      invariant s.minZoom > s.maxZoom ==> store == map[]
      invariant DoneBelow(sp, p, s, db, extent, z, store)
      invariant z <= s.maxZoom ==> LevelOf(sp, p, s, db, extent, z, level)
    {
      if level == [] {
        EmptyLevelIsDone(sp, p, s, db, extent, z, store);
        z := s.maxZoom + 1;
        break;
      }
      var expand;
      ghost var before := store;
      store, expand := WalkLevel(sp, p, s, db, z, level, store);
      LevelDone(sp, p, s, db, extent, z, level, before, store);
      if z < s.maxZoom {
        var next := ChildrenWithin(p, expand, extent, z);
        NextLevel(sp, p, s, db, extent, z, level, expand, next);
        level := next;
      } else {
        level := [];
      }
      z := z + 1;
    }
    WalkDone(sp, p, s, db, extents, margin, z, store);
    if NamesApart(s) { WalkShows(sp, p, s, db, extents, margin, store); }
  }

  lemma WalkShows(sp: Spatial, p: Projection, s: SourceConfig, db: Db, extents: seq<Option<Bounds>>, margin: real, store: Store)
    requires NamesApart(s) && ScanWithin(sp, p, s, db, extents, margin, store)
    ensures forall t :: t in store ==> StoredShows(sp, p, s, db, store, t)
  {
    hide Generated, InWalk, NamesApart, TileShows, TileLayersAtZoom, TileBounds;
    forall t | t in store ensures StoredShows(sp, p, s, db, store, t) {
      assert StoredTile(store, t) == Generated(sp, p, s, db, t);
      GeneratedShows(sp, p, s, db, t);
    }
  }

  // ------------------------------------------------------------- a full scan

  // The store of a scan over every tile of the source's zooms.
  ghost predicate FullScan(sp: Spatial, p: Projection, s: SourceConfig, db: Db, store: Store) {
    forall t: TileCoord :: StoredTile(store, t) ==
      if s.minZoom <= t.z <= s.maxZoom && InGrid(t) then Generated(sp, p, s, db, t) else None
  }

  // Then every tile of the source's zooms shows exactly what the tables hold there.
  lemma FullScanShows(sp: Spatial, p: Projection, s: SourceConfig, db: Db, store: Store, t: TileCoord)
    requires NamesApart(s) && FullScan(sp, p, s, db, store) && s.minZoom <= t.z <= s.maxZoom && InGrid(t)
    ensures StoredShows(sp, p, s, db, store, t)
  {
    hide Generated, InGrid, NamesApart, TileShows, TileLayersAtZoom, TileBounds;
    GeneratedShows(sp, p, s, db, t);
  }

  // What `get_layer_extent` answers: a box around what the layer's rows can show.
  ghost predicate ExtentAnswers(sp: Spatial, s: SourceConfig, db: Db, extents: seq<Option<Bounds>>) {
    && |extents| == |s.layers|
    && forall i, id :: 0 <= i < |s.layers| && id in RowsOf(db, s.layers[i].name) ==>
      RowInExtent(sp, s.layers[i], RowsOf(db, s.layers[i].name)[id], extents[i])
  }

  ghost predicate RowInExtent(sp: Spatial, l: LayerConfig, row: Row, extent: Option<Bounds>) {
    row.passes && row.geom.Some? ==>
      && extent.Some? && BoxIn(sp.box(row.geom.value), extent.value)
      && (ActiveLabelColumn(l) && row.labelAt.Some? ==> BoxIn(sp.box(row.labelAt.value), extent.value))
  }

  predicate WithinPoles(b: Bounds) {
    -90.0 <= b.minLat && b.maxLat <= 90.0
  }

  // A box meeting a tile, once widened, reaches strictly past the tile's edges.
  lemma MarginReachesTile(p: Projection, box: Bounds, extent: Bounds, margin: real, t: TileCoord)
    requires Mercator(p) && Ordered(box) && InGrid(t) && BoxesMeet(box, TileBounds(p, t))
    requires BoxIn(box, extent) && margin > 0.0 && WithinPoles(ExpandBounds(extent, margin))
    ensures TouchesTile(p, ExpandBounds(extent, margin), t)
  {
    MeetsTile(p, box, t);
    var wide := ExpandBounds(extent, margin);
    assert p.y(wide.maxLat) < p.y(box.maxLat) && p.y(box.minLat) < p.y(wide.minLat);
    assert Lon(wide.minLon) < Lon(box.minLon) && Lon(box.maxLon) < Lon(wide.maxLon);
    RangeHoldsTile(p, wide, t);
  }

  // A row whose label point a tile meets although it has no geometry: it shows there
  // and widens no extent.
  predicate BareLabelIn(sp: Spatial, l: LayerConfig, row: Row, b: Bounds) {
    ActiveLabelColumn(l) && row.passes && row.geom.None? && row.labelAt.Some? && sp.hits(row.labelAt.value, b)
  }

  // The tiles such labels are drawn in are among those the walk looks at.
  ghost predicate BareLabelsInWalk(sp: Spatial, p: Projection, s: SourceConfig, db: Db, extents: seq<Option<Bounds>>, margin: real) {
    forall l, id, t {:trigger LayerAppliesAtZoom(s, l, t.z), RowsOf(db, l.name)[id]} ::
      (l in s.layers && id in RowsOf(db, l.name) && InGrid(t) && s.minZoom <= t.z <= s.maxZoom
        && LayerAppliesAtZoom(s, l, t.z) && BareLabelIn(sp, l, RowsOf(db, l.name)[id], TileBounds(p, t)))
        ==> InWalk(p, extents, margin, t)
  }

  // A tile with content that the walk passes by has a label without a geometry.
  lemma MissedHasBareLabel(sp: Spatial, p: Projection, s: SourceConfig, db: Db, extents: seq<Option<Bounds>>, margin: real,
                           i: nat, t: TileCoord) returns (id: int)
    requires SpatialLaws(sp) && Mercator(p) && ExtentAnswers(sp, s, db, extents)
    requires margin > 0.0 && InGrid(t)
    requires DataExtent(extents).Some? ==> WithinPoles(ExpandBounds(DataExtent(extents).value, margin))
    requires i < |s.layers| && HasFeatures(sp, db, s.layers[i], TileBounds(p, t)) && !InWalk(p, extents, margin, t)
    ensures id in RowsOf(db, s.layers[i].name)
    ensures BareLabelIn(sp, s.layers[i], RowsOf(db, s.layers[i].name)[id], TileBounds(p, t))
  {
    hide Mercator, TileBounds, DataExtent, TouchesTile, WithinPoles, InGrid;
    var l := s.layers[i];
    id :| id in RowsOf(db, l.name) && Probed(sp, l, RowsOf(db, l.name)[id], TileBounds(p, t));
    var row := RowsOf(db, l.name)[id];
    assert RowInExtent(sp, l, row, extents[i]);
    if row.geom.Some? {
      ExtentHolds(extents, i);
      var g := if sp.hits(row.geom.value, TileBounds(p, t)) then row.geom.value else row.labelAt.value;
      MarginReachesTile(p, sp.box(g), DataExtent(extents).value, margin, t);
    }
  }

  // A label the walk passes by is in no tile of its store.
  lemma WalkMissesLabelsWithoutGeometry(sp: Spatial, p: Projection, s: SourceConfig, db: Db, extents: seq<Option<Bounds>>,
                                        margin: real, store: Store, l: LayerConfig, id: int, t: TileCoord)
    requires ScanWithin(sp, p, s, db, extents, margin, store) && !InWalk(p, extents, margin, t)
    requires l in s.layers && LayerAppliesAtZoom(s, l, t.z)
    requires InGrid(t) && s.minZoom <= t.z <= s.maxZoom && id in RowsOf(db, l.name)
    requires BareLabelIn(sp, l, RowsOf(db, l.name)[id], TileBounds(p, t))
    ensures StoredTile(store, t).None? && !FullScan(sp, p, s, db, store)
  {
    hide TouchesTile, Generated, TileBounds, LayerAppliesAtZoom, InWalk;
    assert Probed(sp, l, RowsOf(db, l.name)[id], TileBounds(p, t));
    assert HasFeatures(sp, db, l, TileBounds(p, t));
    GeneratedWhenShown(sp, p, s, db, t);
    assert StoredTile(store, t).None?;
  }

  // With the widened extent between the poles, the walk stores what a scan of every
  // tile stores exactly when it looks at every tile showing a label without geometry.
  lemma WalkIsFullScan(sp: Spatial, p: Projection, s: SourceConfig, db: Db, extents: seq<Option<Bounds>>, margin: real, store: Store)
    requires SpatialLaws(sp) && Mercator(p) && ExtentAnswers(sp, s, db, extents)
    requires margin > 0.0
    requires DataExtent(extents).Some? ==> WithinPoles(ExpandBounds(DataExtent(extents).value, margin))
    requires ScanWithin(sp, p, s, db, extents, margin, store)
    ensures FullScan(sp, p, s, db, store) <==> BareLabelsInWalk(sp, p, s, db, extents, margin)
  {
    hide SpatialLaws, Mercator, Generated, ExtentAnswers, DataExtent, WithinPoles, TouchesTile;
    hide StoredTile, HasFeatures, InGrid, LayerAppliesAtZoom, BareLabelIn, TileBounds;
    if !BareLabelsInWalk(sp, p, s, db, extents, margin) {
      var l, id, t :| l in s.layers && id in RowsOf(db, l.name) && InGrid(t) && s.minZoom <= t.z <= s.maxZoom
        && LayerAppliesAtZoom(s, l, t.z) && BareLabelIn(sp, l, RowsOf(db, l.name)[id], TileBounds(p, t))
        && !InWalk(p, extents, margin, t);
      WalkMissesLabelsWithoutGeometry(sp, p, s, db, extents, margin, store, l, id, t);
    } else {
      forall t: TileCoord
        ensures StoredTile(store, t) ==
          if s.minZoom <= t.z <= s.maxZoom && InGrid(t) then Generated(sp, p, s, db, t) else None
      {
        if InWalk(p, extents, margin, t) {
          TouchedIsInGrid(p, ExpandBounds(DataExtent(extents).value, margin), t);
        } else if InGrid(t) && s.minZoom <= t.z <= s.maxZoom && Generated(sp, p, s, db, t).Some? {
          GeneratedWhenShown(sp, p, s, db, t);
          var l :| l in s.layers && LayerAppliesAtZoom(s, l, t.z) && HasFeatures(sp, db, l, TileBounds(p, t));
          var i :| 0 <= i < |s.layers| && s.layers[i] == l;
          var id := MissedHasBareLabel(sp, p, s, db, extents, margin, i, t);
        }
      }
    }
  }

  // ------------------------------------------------------------- where they part

  // The code computes a position from a tangent, which repeats every 180 degrees:
  // past a pole positions start over from the other one.
  ghost predicate Periodic(p: Projection) {
    && (forall lat: real :: 90.0 < lat < 270.0 ==> p.y(lat) == p.y(lat - 180.0))
    && (forall lat: real :: -270.0 < lat < -90.0 ==> p.y(lat) == p.y(lat + 180.0))
  }

  // A margin leading past the north pole leaves the last row of every zoom, one
  // leading past the south pole the first row.
  lemma MarginPastPole(p: Projection, extents: seq<Option<Bounds>>, margin: real, t: TileCoord)
    requires Mercator(p) && Periodic(p) && DataExtent(extents).Some?
    requires InWalk(p, extents, margin, t)
    ensures var wide := ExpandBounds(DataExtent(extents).value, margin);
      && (90.0 < wide.maxLat <= 180.0 + p.lat(1.0) ==> t.y == Pow2(t.z) - 1)
      && (p.lat(0.0) - 180.0 <= wide.minLat < -90.0 ==> t.y == 0)
  {
    var wide := ExpandBounds(DataExtent(extents).value, margin);
    var n := Pow2(t.z);
    Pow2Positive(t.z);
    if 90.0 < wide.maxLat <= 180.0 + p.lat(1.0) {
      var folded := wide.maxLat - 180.0;
      assert p.y(wide.maxLat) == p.y(folded);
      LatAgainstPosition(p, folded, 1.0);
      CellAtLeast(p.y(folded), n - 1, n);
      EdgesInUnit(n - 1, n);
    }
    if p.lat(0.0) - 180.0 <= wide.minLat < -90.0 {
      var folded := wide.minLat + 180.0;
      assert p.y(wide.minLat) == p.y(folded);
      LatAgainstPosition(p, folded, 0.0);
      CellMonotone(p.y(folded), 0.0, n);
    }
  }

  predicate HasContent(sp: Spatial, p: Projection, s: SourceConfig, db: Db, t: TileCoord) {
    InGrid(t) && s.minZoom <= t.z <= s.maxZoom && Generated(sp, p, s, db, t).Some?
  }

  // Both hold of some axis: one that runs straight between the poles.
  lemma ProjectionExists() returns (p: Projection)
    ensures Mercator(p) && Periodic(p)
  {
    var y := (lat: real) =>
      if lat > 90.0 then 0.5 - (lat - 180.0) / 170.0
      else if lat < -90.0 then 0.5 - (lat + 180.0) / 170.0
      else 0.5 - lat / 170.0;
    p := Projection(y, (t: real) => 85.0 - 170.0 * t);
  }

  // So data within a margin of a pole loses every tile but those of one row: given
  // content off the last row and off the first row, the walk stores what a scan
  // stores exactly when the widened extent ends before the poles and no label without
  // a geometry is missed.
  lemma WalkIsFullScanBetweenPoles(sp: Spatial, p: Projection, s: SourceConfig, db: Db, extents: seq<Option<Bounds>>, margin: real,
                                   store: Store, t: TileCoord, u: TileCoord)
    requires SpatialLaws(sp) && Mercator(p) && Periodic(p) && ExtentAnswers(sp, s, db, extents)
    requires ScanWithin(sp, p, s, db, extents, margin, store)
    requires 0.0 < margin < 90.0 - p.lat(0.0)
    requires DataExtent(extents).Some? ==> WithinPoles(DataExtent(extents).value)
    requires HasContent(sp, p, s, db, t) && t.y < Pow2(t.z) - 1
    requires HasContent(sp, p, s, db, u) && u.y > 0
    ensures FullScan(sp, p, s, db, store) <==>
      && DataExtent(extents).Some? && WithinPoles(ExpandBounds(DataExtent(extents).value, margin))
      && BareLabelsInWalk(sp, p, s, db, extents, margin)
  {
    hide SpatialLaws, Mercator, Periodic, TouchesTile, Generated, DataExtent, ExtentAnswers, InGrid, BareLabelsInWalk;
    if DataExtent(extents).None? {
      assert StoredTile(store, t).None?;
    } else if WithinPoles(ExpandBounds(DataExtent(extents).value, margin)) {
      WalkIsFullScan(sp, p, s, db, extents, margin, store);
    } else {
      LatOfEnds(p);
      if InWalk(p, extents, margin, t) { MarginPastPole(p, extents, margin, t); }
      if InWalk(p, extents, margin, u) { MarginPastPole(p, extents, margin, u); }
      assert StoredTile(store, t).None? || StoredTile(store, u).None?;
    }
  }

  lemma LatOfEnds(p: Projection)
    requires Mercator(p)
    ensures p.lat(1.0) == -p.lat(0.0)
  {}
}
