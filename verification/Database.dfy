// The tables behind the layers and the queries a tile is built from
// (src/postgis.rs, fetch_tile_features in src/generator.rs). Geometries are what
// the database stores; what it computes from them is a parameter.

module Database {
  import opened Config
  import opened Options
  import opened Tiles

  type Geometry = string

  // A row of a layer's table: its geometry, the point of a label column, whether
  // it passes the layer's filter, and the rest.
  datatype Row = Row(geom: Option<Geometry>, labelAt: Option<Geometry>, passes: bool, properties: string)

  type Rows = map<int, Row>

  type Db = map<string, Rows>

  function RowsOf(db: Db, layer: string): Rows {
    if layer in db then db[layer] else map[]
  }

  // `hits` is ST_Intersects with an envelope, `box` the envelope in degrees.
  datatype Spatial = Spatial(box: Geometry -> Bounds, hits: (Geometry, Bounds) -> bool)

  ghost predicate SpatialLaws(sp: Spatial) {
    && (forall g, a, b {:trigger sp.hits(g, a), BoxIn(a, b)} :: sp.hits(g, a) && BoxIn(a, b) ==> sp.hits(g, b))
    && (forall g, b :: sp.hits(g, b) ==> BoxesMeet(sp.box(g), b))
    && (forall g :: Ordered(sp.box(g)))
  }

  // ------------------------------------------------------------- queries

  predicate ActiveLabelColumn(l: LayerConfig) {
    l.generateLabelPoints && l.labelPointColumn
  }

  // The column a tile layer is read from.
  function SourceColumn(tl: TileLayer, row: Row): Option<Geometry> {
    if tl.derived == Some(LabelPoint) && tl.layer.labelPointColumn then row.labelAt else row.geom
  }

  predicate Shown(sp: Spatial, tl: TileLayer, row: Row, b: Bounds) {
    row.passes && SourceColumn(tl, row).Some? && sp.hits(SourceColumn(tl, row).value, b)
  }

  // `get_features_in_bounds` and its counterpart for derived layers.
  function Fetch(sp: Spatial, db: Db, tl: TileLayer, b: Bounds): Rows {
    var rows := RowsOf(db, tl.layer.name);
    map id | id in rows && Shown(sp, tl, rows[id], b) :: rows[id]
  }

  predicate Probed(sp: Spatial, l: LayerConfig, row: Row, b: Bounds) {
    && row.passes
    && ((row.geom.Some? && sp.hits(row.geom.value, b))
        || (ActiveLabelColumn(l) && row.labelAt.Some? && sp.hits(row.labelAt.value, b)))
  }

  // `layer_has_features_in_bounds`
  predicate HasFeatures(sp: Spatial, db: Db, l: LayerConfig, b: Bounds) {
    exists id :: id in RowsOf(db, l.name) && Probed(sp, l, RowsOf(db, l.name)[id], b)
  }

  // ------------------------------------------------------------- tile content

  // What gets encoded: per tile layer with features, those features.
  type Content = map<string, Rows>

  function Fetches(sp: Spatial, db: Db, tls: seq<TileLayer>, b: Bounds): (got: seq<Rows>)
    ensures |got| == |tls|
  {
    seq(|tls|, i requires 0 <= i < |tls| => Fetch(sp, db, tls[i], b))
  }

  function Assemble(tls: seq<TileLayer>, got: seq<Rows>, k: nat): Content
    requires k <= |tls| == |got|
  {
    if k == 0 then map[]
    else
      var before := Assemble(tls, got, k - 1);
      if got[k - 1] == map[] then before else before[tls[k - 1].name := got[k - 1]]
  }

  lemma {:induction false} AssembleEmpty(tls: seq<TileLayer>, got: seq<Rows>, k: nat)
    requires k <= |tls| == |got|
    ensures Assemble(tls, got, k) == map[] <==> forall i :: 0 <= i < k ==> got[i] == map[]
  {
    if k > 0 {
      AssembleEmpty(tls, got, k - 1);
      if got[k - 1] != map[] { assert tls[k - 1].name in Assemble(tls, got, k); }
    }
  }

  // With distinct names no tile layer overwrites another.
  lemma {:induction false} AssembleKeepsAll(tls: seq<TileLayer>, got: seq<Rows>, k: nat, name: string)
    requires k <= |tls| == |got|
    requires forall i, j :: 0 <= i < j < |tls| ==> tls[i].name != tls[j].name
    ensures name in Assemble(tls, got, k) <==> exists i :: 0 <= i < k && tls[i].name == name && got[i] != map[]
    ensures forall i :: 0 <= i < k && tls[i].name == name && got[i] != map[] ==>
      name in Assemble(tls, got, k) && Assemble(tls, got, k)[name] == got[i]
  {
    if k > 0 { AssembleKeepsAll(tls, got, k - 1, name); }
  }

  function LayerRows(c: Content, name: string): Rows {
    if name in c then c[name] else map[]
  }

  // When all tile layers of one name fetched the same, that is what the tile holds.
  lemma {:induction false} AssembleAt(tls: seq<TileLayer>, got: seq<Rows>, k: nat, name: string, rows: Rows)
    requires k <= |tls| == |got|
    requires forall i :: 0 <= i < |tls| && tls[i].name == name ==> got[i] == rows
    ensures LayerRows(Assemble(tls, got, k), name) == if exists i :: 0 <= i < k && tls[i].name == name then rows else map[]
  {
    if k > 0 { AssembleAt(tls, got, k - 1, name, rows); }
  }

  // ------------------------------------------------------------- what a tile holds

  // Of a table, the rows that pass and whose geometry, or label point, meets the box.
  ghost predicate ShowsRows(sp: Spatial, table: Rows, labels: bool, b: Bounds, got: Rows) {
    forall id ::
      && (id in got <==> (id in table && table[id].passes
        && (if labels then table[id].labelAt.Some? && sp.hits(table[id].labelAt.value, b)
            else table[id].geom.Some? && sp.hits(table[id].geom.value, b))))
      && (id in got ==> got[id] == table[id])
  }

  // Each of some tile layers, under its name, shows those of its table; label points are
  // placed by the label column where there is one. There is nothing else.
  ghost predicate TileShows(sp: Spatial, db: Db, tls: seq<TileLayer>, b: Bounds, c: Content) {
    && (forall tl :: tl in tls ==>
      ShowsRows(sp, if tl.layer.name in db then db[tl.layer.name] else map[],
        tl.derived == Some(LabelPoint) && tl.layer.labelPointColumn, b, if tl.name in c then c[tl.name] else map[]))
    && (forall name :: name in c ==> c[name] != map[] && exists tl :: tl in tls && tl.name == name)
  }

  ghost predicate NamesOnce(tls: seq<TileLayer>) {
    forall tl, other :: tl in tls && other in tls && tl.name == other.name ==> tl == other
  }

  lemma FetchShows(sp: Spatial, db: Db, tl: TileLayer, b: Bounds)
    ensures ShowsRows(sp, if tl.layer.name in db then db[tl.layer.name] else map[],
      tl.derived == Some(LabelPoint) && tl.layer.labelPointColumn, b, Fetch(sp, db, tl, b))
  {}

  lemma {:induction false} AssembleNames(tls: seq<TileLayer>, got: seq<Rows>, k: nat, name: string)
    requires k <= |tls| == |got| && name in Assemble(tls, got, k)
    ensures Assemble(tls, got, k)[name] != map[] && exists i :: 0 <= i < k && tls[i].name == name
  {
    if got[k - 1] == map[] || tls[k - 1].name != name { AssembleNames(tls, got, k - 1, name); }
  }

  lemma AssembleShows(sp: Spatial, db: Db, tls: seq<TileLayer>, b: Bounds)
    requires NamesOnce(tls)
    ensures TileShows(sp, db, tls, b, Assemble(tls, Fetches(sp, db, tls, b), |tls|))
  {
    hide Fetch, Assemble, ShowsRows;
    var got := Fetches(sp, db, tls, b);
    forall tl | tl in tls
      ensures ShowsRows(sp, if tl.layer.name in db then db[tl.layer.name] else map[],
        tl.derived == Some(LabelPoint) && tl.layer.labelPointColumn, b, LayerRows(Assemble(tls, got, |tls|), tl.name))
    {
      FetchShows(sp, db, tl, b);
      AssembleAt(tls, got, |tls|, tl.name, Fetch(sp, db, tl, b));
    }
    forall name | name in Assemble(tls, got, |tls|)
      ensures Assemble(tls, got, |tls|)[name] != map[] && exists tl :: tl in tls && tl.name == name
    {
      AssembleNames(tls, got, |tls|, name);
      var i :| 0 <= i < |tls| && tls[i].name == name;
      assert tls[i] in tls;
    }
  }

  // The tile a fresh generation gives: none when no active layer has features.
  function Generated(sp: Spatial, p: Projection, s: SourceConfig, db: Db, t: TileCoord): Option<Content> {
    var tls := TileLayersAtZoom(s, t.z);
    var c := Assemble(tls, Fetches(sp, db, tls, TileBounds(p, t)), |tls|);
    if c == map[] then None else Some(c)
  }

  type Store = map<TileCoord, Content>

  function StoredTile(store: Store, t: TileCoord): Option<Content> {
    if t in store then Some(store[t]) else None
  }

  // With names apart the tile layers of every zoom have names of their own, so a fresh
  // tile shows, for every tile layer encoded at its zoom, exactly its rows there.
  lemma GeneratedShows(sp: Spatial, p: Projection, s: SourceConfig, db: Db, t: TileCoord)
    requires NamesApart(s)
    ensures NamesOnce(TileLayersAtZoom(s, t.z))
    ensures TileShows(sp, db, TileLayersAtZoom(s, t.z), TileBounds(p, t), Held(Generated(sp, p, s, db, t)))
  {
    var tls := TileLayersAtZoom(s, t.z);
    hide TileShows, Assemble, Fetch, TileLayersAtZoom, NamesApart, Family, TileBounds;
    forall tl, other | tl in tls && other in tls && tl.name == other.name ensures tl == other {
      EncodedLayers(s, t.z, tl);
      EncodedLayers(s, t.z, other);
      OneTileLayer(s, tl, other);
    }
    AssembleShows(sp, db, tls, TileBounds(p, t));
  }

  // A tile that is not there holds nothing.
  function Held(tile: Option<Content>): Content {
    if tile.Some? then tile.value else map[]
  }

  // A tile of a store shows what its tables hold there.
  ghost predicate StoredShows(sp: Spatial, p: Projection, s: SourceConfig, db: Db, store: Store, t: TileCoord) {
    TileShows(sp, db, TileLayersAtZoom(s, t.z), TileBounds(p, t), Held(StoredTile(store, t)))
  }

  // `fetch_tile_features`
  method FetchTileFeatures(sp: Spatial, db: Db, tls: seq<TileLayer>, b: Bounds) returns (c: Content)
    ensures c == Assemble(tls, Fetches(sp, db, tls, b), |tls|)
    ensures NamesOnce(tls) ==> TileShows(sp, db, tls, b, c)
  {
    if NamesOnce(tls) { AssembleShows(sp, db, tls, b); }
    hide NamesOnce, TileShows;
    c := map[];
    var i := 0;
    while i < |tls|
      invariant 0 <= i <= |tls|
      invariant c == Assemble(tls, Fetches(sp, db, tls, b), i)
    {
      var features := Fetch(sp, db, tls[i], b);
      if features != map[] { c := c[tls[i].name := features]; }
      i := i + 1;
    }
  }

  // A tile has content exactly when some layer active at its zoom shows a row in it.
  lemma GeneratedWhenShown(sp: Spatial, p: Projection, s: SourceConfig, db: Db, t: TileCoord)
    ensures Generated(sp, p, s, db, t).Some? <==>
      exists l :: l in s.layers && LayerAppliesAtZoom(s, l, t.z) && HasFeatures(sp, db, l, TileBounds(p, t))
  {
    hide Fetch, HasFeatures, LayerAppliesAtZoom;
    var tls, b := TileLayersAtZoom(s, t.z), TileBounds(p, t);
    var got := Fetches(sp, db, tls, b);
    AssembleEmpty(tls, got, |tls|);
    if i :| 0 <= i < |tls| && got[i] != map[] {
      EncodedLayers(s, t.z, tls[i]);
      FetchedIsFeature(sp, db, tls[i], b);
    }
    if l :| l in s.layers && LayerAppliesAtZoom(s, l, t.z) && HasFeatures(sp, db, l, b) {
      var tl := FeatureIsFetched(sp, db, l, b);
      EncodedLayers(s, t.z, tl);
      var i :| 0 <= i < |tls| && tls[i] == tl;
      assert got[i] != map[];
    }
  }

  lemma SomeKey(m: Rows)
    ensures m == map[] || exists id :: id in m
  {
    if forall id :: id !in m { assert m == map[]; }
  }

  lemma FetchedIsFeature(sp: Spatial, db: Db, tl: TileLayer, b: Bounds)
    requires Fetch(sp, db, tl, b) != map[] && tl in Family(tl.layer)
    ensures HasFeatures(sp, db, tl.layer, b)
  {
    SomeKey(Fetch(sp, db, tl, b));
    var id :| id in Fetch(sp, db, tl, b);
    assert Probed(sp, tl.layer, RowsOf(db, tl.layer.name)[id], b);
  }

  lemma FeatureIsFetched(sp: Spatial, db: Db, l: LayerConfig, b: Bounds) returns (tl: TileLayer)
    requires HasFeatures(sp, db, l, b)
    ensures tl.layer == l && tl in Family(l) && Fetch(sp, db, tl, b) != map[]
  {
    var id :| id in RowsOf(db, l.name) && Probed(sp, l, RowsOf(db, l.name)[id], b);
    var row := RowsOf(db, l.name)[id];
    tl := TileLayer(l.name, l, None);
    if Shown(sp, tl, row, b) {
      assert id in Fetch(sp, db, tl, b);
    } else {
      tl := TileLayer(LabelsName(l), l, Some(LabelPoint));
      assert id in Fetch(sp, db, tl, b);
    }
  }
}
