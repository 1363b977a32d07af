// Incremental updates (src/updater.rs) driven by the triggers of
// sql/setup_notify.sql: rows change, notifications queue up, batches of them
// regenerate tiles. Row edits may fall between any two steps of a batch.

module Updater {
  import opened Config
  import opened Database
  import opened Events
  import opened Generator
  import opened Options
  import opened Tiles
  import opened Words

  // A notification: where the row was before, if it had a geometry.
  datatype Note = Note(layer: string, id: int, oldBox: Option<Bounds>)

  // What stays fixed: the source, the projection and what the database computes.
  // The trigger takes the envelope of the projected geometry (`sp.box`),
  // `get_feature` projects the envelope (`queried`).
  datatype Setting = Setting(source: SourceConfig, p: Projection, sp: Spatial, queried: Geometry -> Bounds)

  predicate Visible(row: Row) {
    row.passes && row.geom.Some?
  }

  // `affected_tiles`
  predicate Affected(w: Setting, l: LayerConfig, b: Bounds, t: TileCoord) {
    LayerAppliesAtZoom(w.source, l, t.z) && TouchesTile(w.p, b, t)
  }

  // The boxes one notification records: the row as it is now, then as it was.
  function Recorded(w: Setting, db: Db, n: Note): seq<Bounds> {
    var l := FindLayer(w.source.layers, n.layer);
    if l.None? then []
    else
      var rows := RowsOf(db, l.value.name);
      (if n.id in rows && Visible(rows[n.id]) then [w.queried(rows[n.id].geom.value)] else [])
      + (if n.oldBox.Some? then [n.oldBox.value] else [])
  }

  ghost predicate AffectedBy(w: Setting, db: Db, n: Note, t: TileCoord) {
    var l := FindLayer(w.source.layers, n.layer);
    l.Some? && exists b :: b in Recorded(w, db, n) && Affected(w, l.value, b, t)
  }

  // ------------------------------------------------------------- states and steps

  datatype Work =
    | Idle
    | Looking(todo: seq<Note>, affected: set<TileCoord>)
    | Rendering(tiles: set<TileCoord>, got: map<(TileCoord, nat), Rows>)

  datatype State = State(db: Db, queue: seq<Note>, work: Work, store: Store)

  datatype Step =
    | Edit(layer: string, removed: Option<int>, added: Option<(int, Row)>)
    | Take(n: nat)
    | Look
    | Render
    | FetchLayer(t: TileCoord, k: nat)
    | Commit

  // A row goes, comes, or changes (possibly its id too).
  function EditRows(db: Db, layer: string, removed: Option<int>, added: Option<(int, Row)>): Db {
    var rows := RowsOf(db, layer);
    var rest := if removed.Some? then rows - {removed.value} else rows;
    db[layer := if added.Some? then rest[added.value.0 := added.value.1] else rest]
  }

  function OldBox(w: Setting, row: Row): Option<Bounds> {
    if row.geom.Some? then Some(w.sp.box(row.geom.value)) else None
  }

  predicate EditAllowed(db: Db, layer: string, removed: Option<int>, added: Option<(int, Row)>) {
    var rows := RowsOf(db, layer);
    && (removed.Some? ==> removed.value in rows)
    && (added.Some? ==> added.value.0 !in rows || removed == Some(added.value.0))
    && (removed.Some? || added.Some?)
  }

  // `notify_tile_update`: the new id, or the old one of a deleted row; the old box.
  function NoteOf(w: Setting, db: Db, layer: string, removed: Option<int>, added: Option<(int, Row)>): Note
    requires EditAllowed(db, layer, removed, added)
  {
    Note(layer, if added.Some? then added.value.0 else removed.value,
      if removed.Some? then OldBox(w, RowsOf(db, layer)[removed.value]) else None)
  }

  // A tile once all its layers have been fetched; none when they are all empty.
  function Encoded(w: Setting, got: map<(TileCoord, nat), Rows>, t: TileCoord): Option<Content> {
    var tls := TileLayersAtZoom(w.source, t.z);
    var c := Assemble(tls, seq(|tls|, k => if (t, k) in got then got[(t, k)] else map[]), |tls|);
    if c == map[] then None else Some(c)
  }

  ghost predicate AllFetched(w: Setting, tiles: set<TileCoord>, got: map<(TileCoord, nat), Rows>) {
    forall t, k: nat :: t in tiles && k < |TileLayersAtZoom(w.source, t.z)| ==> (t, k) in got
  }

  ghost predicate Next(w: Setting, s: State, step: Step, s': State) {
    match step
    case Edit(layer, removed, added) =>
      && EditAllowed(s.db, layer, removed, added)
      && s' == s.(db := EditRows(s.db, layer, removed, added), queue := s.queue + [NoteOf(w, s.db, layer, removed, added)])
    case Take(n) =>
      && s.work.Idle? && 1 <= n <= |s.queue|
      && s' == s.(queue := s.queue[n..], work := Looking(s.queue[..n], {}))
    case Look =>
      && s.work.Looking? && s.work.todo != []
      && s'.work.Looking? && s'.work.todo == s.work.todo[1..]
      && (forall t :: t in s'.work.affected <==> t in s.work.affected || AffectedBy(w, s.db, s.work.todo[0], t))
      && s' == s.(work := s'.work)
    case Render =>
      && s.work.Looking? && s.work.todo == []
      && s' == s.(work := Rendering(s.work.affected, map[]))
    case FetchLayer(t, k) =>
      && s.work.Rendering? && t in s.work.tiles && (t, k) !in s.work.got
      && var tls := TileLayersAtZoom(w.source, t.z);
      && k < |tls|
      && s' == s.(work := s.work.(got := s.work.got[(t, k) := Fetch(w.sp, s.db, tls[k], TileBounds(w.p, t))]))
    case Commit =>
      && s.work.Rendering? && AllFetched(w, s.work.tiles, s.work.got)
      && (forall t :: StoredTile(s'.store, t) == if t in s.work.tiles then Encoded(w, s.work.got, t) else StoredTile(s.store, t))
      && s' == s.(work := Idle, store := s'.store)
  }

  // ------------------------------------------------------------- the invariant

  // The tile a fresh generation of the current tables would store.
  function Target(w: Setting, db: Db, t: TileCoord): Option<Content> {
    if w.source.minZoom <= t.z <= w.source.maxZoom && InGrid(t) then Generated(w.sp, w.p, w.source, db, t) else None
  }

  predicate Fresh(w: Setting, s: State, t: TileCoord) {
    StoredTile(s.store, t) == Target(w, s.db, t)
  }

  predicate ShowsIn(w: Setting, row: Row, t: TileCoord) {
    Visible(row) && w.sp.hits(row.geom.value, TileBounds(w.p, t))
  }

  // A notification is about a tile: the old box touches it, or the row as it is now
  // shows in it.
  predicate Announces(w: Setting, db: Db, n: Note, t: TileCoord) {
    var l := FindLayer(w.source.layers, n.layer);
    && l.Some? && LayerAppliesAtZoom(w.source, l.value, t.z) && InGrid(t)
    && ((n.oldBox.Some? && TouchesTile(w.p, n.oldBox.value, t))
        || (n.id in RowsOf(db, n.layer) && ShowsIn(w, RowsOf(db, n.layer)[n.id], t)))
  }

  ghost predicate Announced(w: Setting, db: Db, notes: seq<Note>, t: TileCoord) {
    exists n :: n in notes && Announces(w, db, n, t)
  }

  // Fetched features are current unless a queued notification is about the tile.
  ghost predicate FetchedFresh(w: Setting, s: State, t: TileCoord)
    requires s.work.Rendering?
  {
    forall k: nat :: k < |TileLayersAtZoom(w.source, t.z)| && (t, k) in s.work.got ==>
      s.work.got[(t, k)] == Fetch(w.sp, s.db, TileLayersAtZoom(w.source, t.z)[k], TileBounds(w.p, t))
  }

  ghost predicate Accounted(w: Setting, s: State, t: TileCoord) {
    Announced(w, s.db, s.queue, t) ||
    match s.work
    case Idle => Fresh(w, s, t)
    case Looking(todo, affected) => Fresh(w, s, t) || Announced(w, s.db, todo, t) || t in affected
    case Rendering(tiles, got) => if t in tiles then FetchedFresh(w, s, t) else Fresh(w, s, t)
  }

  // Only tiles of the source's zooms are ever regenerated.
  ghost predicate InZooms(w: Setting, s: State) {
    match s.work
    case Idle => true
    case Looking(_, affected) => forall t :: t in affected ==> Regenerable(w, t)
    case Rendering(tiles, _) => forall t :: t in tiles ==> Regenerable(w, t)
  }

  predicate Regenerable(w: Setting, t: TileCoord) {
    w.source.minZoom <= t.z <= w.source.maxZoom && InGrid(t)
  }

  // ------------------------------------------------------------- what it rests on

  // Validated zooms, distinct names, no label column.
  ghost predicate Configured(w: Setting) {
    && NamesApart(w.source)
    && (forall l :: l in w.source.layers ==> Encodable(w.source, l) && !l.labelPointColumn)
  }

  // A row's boxes reach every tile the row shows in.
  ghost predicate RowCovered(w: Setting, row: Row) {
    forall t: TileCoord :: t.z <= w.source.maxZoom && InGrid(t) && ShowsIn(w, row, t) ==>
      TouchesTile(w.p, w.sp.box(row.geom.value), t) && TouchesTile(w.p, w.queried(row.geom.value), t)
  }

  ghost predicate RowsCovered(w: Setting, db: Db) {
    forall name, id :: id in RowsOf(db, name) ==> RowCovered(w, RowsOf(db, name)[id])
  }

  // They do when neither box has its western or northern edge on a tile border of the
  // deepest zoom, and the queried box lies around the recorded one.
  lemma RowsOffBordersAreCovered(w: Setting, row: Row)
    requires SpatialLaws(w.sp) && Mercator(w.p) && Visible(row)
    requires BoxIn(w.sp.box(row.geom.value), w.queried(row.geom.value)) && Ordered(w.queried(row.geom.value))
    requires OffBorders(w, w.sp.box(row.geom.value)) && OffBorders(w, w.queried(row.geom.value))
    ensures RowCovered(w, row)
  {
    hide Mercator, TouchesTile, OnBorder;
    var box, queried := w.sp.box(row.geom.value), w.queried(row.geom.value);
    Pow2Positive(w.source.maxZoom);
    OffBordersCovers(w.p, box, w.source.maxZoom);
    OffBordersCovers(w.p, queried, w.source.maxZoom);
    forall t: TileCoord | t.z <= w.source.maxZoom && InGrid(t) && ShowsIn(w, row, t)
      ensures TouchesTile(w.p, box, t) && TouchesTile(w.p, queried, t)
    {
      assert BoxesMeet(box, TileBounds(w.p, t));
      assert BoxesMeet(queried, TileBounds(w.p, t));
    }
  }

  ghost predicate OffBorders(w: Setting, b: Bounds) {
    Pow2Positive(w.source.maxZoom);
    !OnBorder(Lon(b.minLon), Pow2(w.source.maxZoom)) && !OnBorder(w.p.y(b.maxLat), Pow2(w.source.maxZoom))
  }

  // ------------------------------------------------------------- row edits

  // An edit's rows: the same but for the row removed and the row added.
  lemma EditedRows(db: Db, layer: string, removed: Option<int>, added: Option<(int, Row)>, name: string, id: int)
    requires EditAllowed(db, layer, removed, added)
    ensures var rows, rows' := RowsOf(db, name), RowsOf(EditRows(db, layer, removed, added), name);
      && (name == layer && added.Some? && added.value.0 == id ==> id in rows' && rows'[id] == added.value.1)
      && (name == layer && removed == Some(id) && !(added.Some? && added.value.0 == id) ==> id !in rows')
      && (name != layer || (removed != Some(id) && !(added.Some? && added.value.0 == id)) ==>
        (id in rows <==> id in rows') && (id in rows ==> rows[id] == rows'[id]))
  {}

  // Unless the edit's notification is about a tile, no layer shows a change in it.
  lemma UnannouncedFetch(w: Setting, db: Db, layer: string, removed: Option<int>, added: Option<(int, Row)>,
                         t: TileCoord, tl: TileLayer)
    requires Configured(w) && RowsCovered(w, db) && EditAllowed(db, layer, removed, added)
    requires Regenerable(w, t) && tl in TileLayersAtZoom(w.source, t.z)
    requires !Announces(w, EditRows(db, layer, removed, added), NoteOf(w, db, layer, removed, added), t)
    ensures Fetch(w.sp, db, tl, TileBounds(w.p, t)) == Fetch(w.sp, EditRows(db, layer, removed, added), tl, TileBounds(w.p, t))
  {
    hide EditRows, TouchesTile, TileBounds, InGrid, TileLayersAtZoom, RowsOf, NamesApart, Encodable;
    var b, db' := TileBounds(w.p, t), EditRows(db, layer, removed, added);
    EncodedLayers(w.source, t.z, tl);
    var rows, rows' := RowsOf(db, tl.layer.name), RowsOf(db', tl.layer.name);
    forall id
      ensures (id in rows && Shown(w.sp, tl, rows[id], b)) <==> (id in rows' && Shown(w.sp, tl, rows'[id], b))
      ensures id in rows && Shown(w.sp, tl, rows[id], b) ==> id in rows' && rows[id] == rows'[id]
    {
      EditedRows(db, layer, removed, added, tl.layer.name, id);
      if tl.layer.name == layer {
        LayerIsFound(w.source, tl.layer);
        if removed == Some(id) { RemovedIsHidden(w, db, layer, removed, added, t, tl); }
      }
    }
  }

  lemma RemovedIsHidden(w: Setting, db: Db, layer: string, removed: Option<int>, added: Option<(int, Row)>, t: TileCoord, tl: TileLayer)
    requires Configured(w) && RowsCovered(w, db) && EditAllowed(db, layer, removed, added) && removed.Some?
    requires Regenerable(w, t) && tl.layer in w.source.layers && tl.layer.name == layer && LayerAppliesAtZoom(w.source, tl.layer, t.z)
    requires FindLayer(w.source.layers, layer) == Some(tl.layer)
    requires !Announces(w, EditRows(db, layer, removed, added), NoteOf(w, db, layer, removed, added), t)
    ensures !Shown(w.sp, tl, RowsOf(db, layer)[removed.value], TileBounds(w.p, t))
  {
    hide EditRows, TouchesTile, TileBounds, InGrid, RowsOf, NamesApart, Encodable, FindLayer;
    var row := RowsOf(db, layer)[removed.value];
    RowIsCovered(w, db, layer, removed.value);
  }

  lemma RowIsCovered(w: Setting, db: Db, name: string, id: int)
    requires RowsCovered(w, db) && id in RowsOf(db, name)
    ensures RowCovered(w, RowsOf(db, name)[id])
  {}

  lemma UnannouncedTarget(w: Setting, db: Db, layer: string, removed: Option<int>, added: Option<(int, Row)>, t: TileCoord)
    requires Configured(w) && RowsCovered(w, db) && EditAllowed(db, layer, removed, added)
    requires !Announces(w, EditRows(db, layer, removed, added), NoteOf(w, db, layer, removed, added), t)
    ensures Target(w, db, t) == Target(w, EditRows(db, layer, removed, added), t)
  {
    hide EditRows, TouchesTile, TileBounds, InGrid, TileLayersAtZoom, RowsOf, Configured, Announces, EditAllowed, Fetch, RowsCovered;
    if Regenerable(w, t) {
      var tls, b, db' := TileLayersAtZoom(w.source, t.z), TileBounds(w.p, t), EditRows(db, layer, removed, added);
      forall k | 0 <= k < |tls|
        ensures Fetch(w.sp, db, tls[k], b) == Fetch(w.sp, db', tls[k], b)
      {
        UnannouncedFetch(w, db, layer, removed, added, t, tls[k]);
      }
      assert Fetches(w.sp, db, tls, b) == Fetches(w.sp, db', tls, b);
    }
  }

  // What was announced stays announced: a row that goes leaves its old box behind.
  lemma AnnouncementsStay(w: Setting, db: Db, layer: string, removed: Option<int>, added: Option<(int, Row)>, t: TileCoord, n: Note)
    requires RowsCovered(w, db) && EditAllowed(db, layer, removed, added)
    requires t.z <= w.source.maxZoom && Announces(w, db, n, t)
    ensures var db' := EditRows(db, layer, removed, added);
      Announces(w, db', n, t) || Announces(w, db', NoteOf(w, db, layer, removed, added), t)
  {
    hide EditRows, TouchesTile, TileBounds, InGrid, RowsOf, FindLayer, RowCovered;
    EditedRows(db, layer, removed, added, n.layer, n.id);
    if n.layer == layer && removed == Some(n.id) && ShowsIn(w, RowsOf(db, n.layer)[n.id], t) {
      RowIsCovered(w, db, layer, n.id);
      CoveredTouches(w, RowsOf(db, layer)[n.id], t);
    }
  }

  lemma CoveredTouches(w: Setting, row: Row, t: TileCoord)
    requires RowCovered(w, row) && t.z <= w.source.maxZoom && InGrid(t) && ShowsIn(w, row, t)
    ensures TouchesTile(w.p, w.sp.box(row.geom.value), t) && TouchesTile(w.p, w.queried(row.geom.value), t)
  {}

  // A notification about a tile makes the batch regenerate it.
  lemma AnnouncedIsAffected(w: Setting, db: Db, n: Note, t: TileCoord)
    requires Configured(w) && RowsCovered(w, db) && t.z <= w.source.maxZoom && Announces(w, db, n, t)
    ensures AffectedBy(w, db, n, t)
  {
    hide TouchesTile, TileBounds, InGrid, RowsOf, RowCovered, Configured;
    var l := FindLayer(w.source.layers, n.layer).value;
    if n.oldBox.Some? && TouchesTile(w.p, n.oldBox.value, t) {
      assert n.oldBox.value in Recorded(w, db, n);
    } else {
      RowIsCovered(w, db, n.layer, n.id);
      var row := RowsOf(db, n.layer)[n.id];
      CoveredTouches(w, row, t);
      assert w.queried(row.geom.value) in Recorded(w, db, n);
    }
  }

  lemma AffectedIsRegenerable(w: Setting, db: Db, n: Note, t: TileCoord)
    requires Configured(w) && AffectedBy(w, db, n, t)
    ensures Regenerable(w, t)
  {
    hide Recorded, NamesApart;
    TouchedIsInGrid(w.p, var b :| b in Recorded(w, db, n) && Affected(w, FindLayer(w.source.layers, n.layer).value, b, t); b, t);
  }

  // ------------------------------------------------------------- each step

  lemma EditKeeps(w: Setting, s: State, layer: string, removed: Option<int>, added: Option<(int, Row)>, s': State, t: TileCoord)
    requires Configured(w) && RowsCovered(w, s.db) && Next(w, s, Edit(layer, removed, added), s')
    requires InZooms(w, s) && Accounted(w, s, t) && Regenerable(w, t)
    ensures Accounted(w, s', t)
  {
    hide EditRows, Announces, Configured, RowsCovered, EditAllowed, NoteOf, Target, InZooms, Fetch, TileBounds;
    var note := NoteOf(w, s.db, layer, removed, added);
    var db' := EditRows(s.db, layer, removed, added);
    assert s'.queue == s.queue + [note];
    assert note in s'.queue;
    if n :| n in s.queue && Announces(w, s.db, n, t) {
      AnnouncementsStay(w, s.db, layer, removed, added, t, n);
      assert n in s'.queue;
    } else if s.work.Looking? && Announced(w, s.db, s.work.todo, t) {
      var n :| n in s.work.todo && Announces(w, s.db, n, t);
      AnnouncementsStay(w, s.db, layer, removed, added, t, n);
    } else if !Announces(w, db', note, t) {
      UnannouncedTarget(w, s.db, layer, removed, added, t);
      var tls := TileLayersAtZoom(w.source, t.z);
      forall k | 0 <= k < |tls|
        ensures Fetch(w.sp, s.db, tls[k], TileBounds(w.p, t)) == Fetch(w.sp, db', tls[k], TileBounds(w.p, t))
      {
        UnannouncedFetch(w, s.db, layer, removed, added, t, tls[k]);
      }
    }
  }

  // Outside the source's zooms there is nothing to store and nothing is stored.
  lemma BeyondZooms(w: Setting, s: State, t: TileCoord)
    requires Configured(w) && InZooms(w, s) && !Regenerable(w, t)
    ensures !Announced(w, s.db, s.queue, t)
    ensures Accounted(w, s, t) <==> StoredTile(s.store, t).None?
  {
    hide NamesApart, TouchesTile;
    forall n ensures !Announces(w, s.db, n, t) { NotAnnouncedBeyond(w, s.db, n, t); }
  }

  lemma NotAnnouncedBeyond(w: Setting, db: Db, n: Note, t: TileCoord)
    requires Configured(w) && !Regenerable(w, t)
    ensures !Announces(w, db, n, t)
  {
    hide NamesApart, TouchesTile, InGrid;
  }

  lemma TakeKeeps(w: Setting, s: State, n: nat, s': State, t: TileCoord)
    requires Next(w, s, Take(n), s') && Accounted(w, s, t)
    ensures Accounted(w, s', t)
  {
    hide Announces, Target;
    if m :| m in s.queue && Announces(w, s.db, m, t) {
      assert s.queue == s.queue[..n] + s.queue[n..];
      assert m in s.queue[..n] || m in s.queue[n..];
    }
  }

  lemma LookKeeps(w: Setting, s: State, s': State, t: TileCoord)
    requires Configured(w) && RowsCovered(w, s.db) && Next(w, s, Look, s') && Accounted(w, s, t) && Regenerable(w, t)
    ensures Accounted(w, s', t)
  {
    hide Announces, Target, AffectedBy, Configured, RowsCovered;
    if m :| m in s.work.todo && Announces(w, s.db, m, t) {
      if m == s.work.todo[0] { AnnouncedIsAffected(w, s.db, m, t); }
      else { assert s.work.todo == [s.work.todo[0]] + s.work.todo[1..]; }
    }
  }

  lemma RenderKeeps(w: Setting, s: State, s': State, t: TileCoord)
    requires Next(w, s, Render, s') && Accounted(w, s, t)
    ensures Accounted(w, s', t)
  {
    hide Announces, Target;
  }

  lemma FetchKeeps(w: Setting, s: State, u: TileCoord, k: nat, s': State, t: TileCoord)
    requires Next(w, s, FetchLayer(u, k), s') && Accounted(w, s, t)
    ensures Accounted(w, s', t)
  {
    hide Announces, Target, Fetch, TileBounds, TileLayersAtZoom;
  }

  lemma FetchedIsTarget(w: Setting, s: State, t: TileCoord)
    requires s.work.Rendering? && t in s.work.tiles && AllFetched(w, s.work.tiles, s.work.got) && FetchedFresh(w, s, t)
    requires Regenerable(w, t)
    ensures Encoded(w, s.work.got, t) == Target(w, s.db, t)
  {
    hide Fetch, TileBounds, TileLayersAtZoom, InGrid;
    var tls, got := TileLayersAtZoom(w.source, t.z), s.work.got;
    assert seq(|tls|, k => if (t, k) in got then got[(t, k)] else map[]) == Fetches(w.sp, s.db, tls, TileBounds(w.p, t));
  }

  lemma CommitKeeps(w: Setting, s: State, s': State, t: TileCoord)
    requires Next(w, s, Commit, s') && InZooms(w, s) && Accounted(w, s, t)
    ensures Accounted(w, s', t)
  {
    hide Announces, Target, FetchedFresh, AllFetched, Encoded, StoredTile;
    if t in s.work.tiles && FetchedFresh(w, s, t) { FetchedIsTarget(w, s, t); }
  }

  lemma ZoomsKept(w: Setting, s: State, step: Step, s': State)
    requires Configured(w) && InZooms(w, s) && Next(w, s, step, s')
    ensures InZooms(w, s')
  {
    hide AffectedBy, Configured, EditAllowed, AllFetched, NoteOf, EditRows, Encoded, Fetch, Regenerable;
    if step.Look? {
      forall t | AffectedBy(w, s.db, s.work.todo[0], t) ensures Regenerable(w, t) {
        AffectedIsRegenerable(w, s.db, s.work.todo[0], t);
      }
    }
  }

  // Outside the zooms the store stays empty.
  lemma BeyondZoomsKeeps(w: Setting, s: State, step: Step, s': State, t: TileCoord)
    requires Configured(w) && InZooms(w, s) && InZooms(w, s') && Next(w, s, step, s') && !Regenerable(w, t) && Accounted(w, s, t)
    ensures Accounted(w, s', t)
  {
    BeyondZooms(w, s, t);
    BeyondZooms(w, s', t);
    hide Accounted, Regenerable, Configured, AffectedBy, EditAllowed, AllFetched, NoteOf, EditRows, Encoded, Fetch;
  }

  // Every step keeps every tile accounted for.
  lemma StepKeeps(w: Setting, s: State, step: Step, s': State, t: TileCoord)
    requires Configured(w) && RowsCovered(w, s.db) && InZooms(w, s) && Next(w, s, step, s') && Accounted(w, s, t)
    ensures Accounted(w, s', t)
  {
    ZoomsKept(w, s, step, s');
    hide *;
    if !Regenerable(w, t) {
      BeyondZoomsKeeps(w, s, step, s', t);
    } else {
      match step
      case Edit(layer, removed, added) => EditKeeps(w, s, layer, removed, added, s', t);
      case Take(n) => TakeKeeps(w, s, n, s', t);
      case Look => LookKeeps(w, s, s', t);
      case Render => RenderKeeps(w, s, s', t);
      case FetchLayer(u, k) => FetchKeeps(w, s, u, k, s', t);
      case Commit => CommitKeeps(w, s, s', t);
    }
  }

  // ------------------------------------------------------------- whole runs

  // Any interleaving of row edits with batches; every row there ever is covered.
  ghost predicate Run(w: Setting, states: seq<State>, steps: seq<Step>) {
    && |states| == |steps| + 1
    && (forall i :: 0 <= i < |steps| ==> Next(w, states[i], steps[i], states[i + 1]))
  }

  ghost predicate RowsCoveredThroughout(w: Setting, states: seq<State>) {
    forall i :: 0 <= i < |states| ==> RowsCovered(w, states[i].db)
  }

  // Freshly generated, nothing queued.
  ghost predicate JustGenerated(w: Setting, s: State) {
    s.queue == [] && s.work.Idle? && FullScan(w.sp, w.p, w.source, s.db, s.store)
  }

  lemma {:induction false} RunConverges(w: Setting, states: seq<State>, steps: seq<Step>, n: nat, t: TileCoord)
    requires Configured(w) && Run(w, states, steps) && RowsCoveredThroughout(w, states) && n < |states|
    requires JustGenerated(w, states[0])
    ensures InZooms(w, states[n]) && Accounted(w, states[n], t)
  {
    if n > 0 {
      hide Configured, Next, RowsCovered, Accounted, InZooms, JustGenerated;
      RunConverges(w, states, steps, n - 1, t);
      assert Next(w, states[n - 1], steps[n - 1], states[n - 1 + 1]);
      ZoomsKept(w, states[n - 1], steps[n - 1], states[n]);
      StepKeeps(w, states[n - 1], steps[n - 1], states[n], t);
    } else {
      StartIsFresh(w, states[0], t);
    }
  }

  lemma StartIsFresh(w: Setting, s: State, t: TileCoord)
    requires JustGenerated(w, s)
    ensures InZooms(w, s) && Accounted(w, s, t)
  {
    hide Generated, InGrid, StoredTile;
  }

  // Between batches a tile that differs from a fresh generation is announced by a
  // notification still queued.
  lemma StaleTilesAreQueued(w: Setting, states: seq<State>, steps: seq<Step>, n: nat, t: TileCoord)
    requires Configured(w) && Run(w, states, steps) && RowsCoveredThroughout(w, states) && n < |states|
    requires JustGenerated(w, states[0]) && states[n].work.Idle?
    ensures Fresh(w, states[n], t) || Announced(w, states[n].db, states[n].queue, t)
  {
    hide Configured, Next, RowsCovered, InZooms, JustGenerated, Fresh, Announced;
    RunConverges(w, states, steps, n, t);
  }

  // Once the queue is empty the store is what a fresh generation would store.
  lemma EmptyQueueMeansFresh(w: Setting, states: seq<State>, steps: seq<Step>, n: nat)
    requires Configured(w) && Run(w, states, steps) && RowsCoveredThroughout(w, states) && n < |states|
    requires JustGenerated(w, states[0]) && states[n].work.Idle? && states[n].queue == []
    ensures FullScan(w.sp, w.p, w.source, states[n].db, states[n].store)
    ensures forall t :: Regenerable(w, t) ==> StoredShows(w.sp, w.p, w.source, states[n].db, states[n].store, t)
  {
    assert NamesApart(w.source);
    hide Configured, Run, Next, RowsCovered, InZooms, JustGenerated, RowsCoveredThroughout, Generated, InGrid, StoredTile;
    var s := states[n];
    forall t: TileCoord
      ensures StoredTile(s.store, t) ==
        (if w.source.minZoom <= t.z <= w.source.maxZoom && InGrid(t) then Generated(w.sp, w.p, w.source, s.db, t) else None)
    {
      StaleTilesAreQueued(w, states, steps, n, t);
    }
    hide StoredShows, NamesApart;
    forall t | Regenerable(w, t) ensures StoredShows(w.sp, w.p, w.source, s.db, s.store, t) {
      FullScanShows(w.sp, w.p, w.source, s.db, s.store, t);
    }
  }

  // ------------------------------------------------------------- rows on borders

  // What a single edit comes to, coverage or not: the tiles its notification does not
  // reach stay as they were, the others are regenerated.
  ghost predicate Missed(w: Setting, db: Db, note: Note, before: Option<Content>, s: State, t: TileCoord) {
    && s.db == db && StoredTile(s.store, t) == before
    && (forall n :: n in s.queue ==> n == note)
    && match s.work
       case Idle => true
       case Looking(todo, affected) => t !in affected && forall n :: n in todo ==> n == note
       case Rendering(tiles, _) => t !in tiles
  }

  lemma MissedStays(w: Setting, db: Db, note: Note, before: Option<Content>, s: State, step: Step, s': State, t: TileCoord)
    requires Missed(w, db, note, before, s, t) && Next(w, s, step, s') && !step.Edit? && !AffectedBy(w, db, note, t)
    ensures Missed(w, db, note, before, s', t)
  {
    hide AffectedBy, Fetch, Encoded, AllFetched, StoredTile, EditAllowed;
    match step
    case Take(n) =>
      forall m | m in s.queue[..n] || m in s.queue[n..] ensures m == note { assert m in s.queue; }
    case Look =>
      assert s.work.todo[0] in s.work.todo;
      forall m | m in s'.work.todo ensures m == note { assert m in s.work.todo; }
      assert t !in s'.work.affected;
    case Render =>
    case FetchLayer(_, _) =>
    case Commit =>
  }

  lemma {:induction false} MissedThroughout(w: Setting, states: seq<State>, steps: seq<Step>, n: nat, note: Note, t: TileCoord)
    requires Run(w, states, steps) && 1 <= n < |states|
    requires forall i :: 1 <= i < |steps| ==> !steps[i].Edit?
    requires Missed(w, states[1].db, note, StoredTile(states[1].store, t), states[1], t)
    requires !AffectedBy(w, states[1].db, note, t)
    ensures Missed(w, states[1].db, note, StoredTile(states[1].store, t), states[n], t)
  {
    if n > 1 {
      hide Missed, Next, AffectedBy;
      MissedThroughout(w, states, steps, n - 1, note, t);
      assert Next(w, states[n - 1], steps[n - 1], states[n - 1 + 1]);
      MissedStays(w, states[1].db, note, StoredTile(states[1].store, t), states[n - 1], steps[n - 1], states[n], t);
    }
  }

  // One edit of a freshly generated source, and none after it.
  ghost predicate OneEdit(w: Setting, states: seq<State>, steps: seq<Step>, layer: string, removed: Option<int>, added: Option<(int, Row)>) {
    && Run(w, states, steps) && JustGenerated(w, states[0])
    && |steps| > 0 && steps[0] == Edit(layer, removed, added)
    && forall i :: 1 <= i < |steps| ==> !steps[i].Edit?
  }

  lemma AfterEdit(w: Setting, states: seq<State>, steps: seq<Step>, layer: string, removed: Option<int>, added: Option<(int, Row)>, t: TileCoord)
    requires OneEdit(w, states, steps, layer, removed, added)
    ensures EditAllowed(states[0].db, layer, removed, added)
    ensures states[1] == State(EditRows(states[0].db, layer, removed, added), [NoteOf(w, states[0].db, layer, removed, added)], Idle, states[0].store)
    ensures StoredTile(states[1].store, t) == Target(w, states[0].db, t)
  {
    hide EditRows, NoteOf, EditAllowed, InGrid, Generated, StoredTile;
    assert Next(w, states[0], steps[0], states[0 + 1]);
  }

  // A tile the edit's notification does not reach is never touched.
  lemma UncoveredRowIsMissed(w: Setting, states: seq<State>, steps: seq<Step>, n: nat,
                             layer: string, removed: Option<int>, added: Option<(int, Row)>, t: TileCoord)
    requires OneEdit(w, states, steps, layer, removed, added) && 1 <= n < |states|
    requires EditAllowed(states[0].db, layer, removed, added)
    requires !AffectedBy(w, states[1].db, NoteOf(w, states[0].db, layer, removed, added), t)
    ensures StoredTile(states[n].store, t) == Target(w, states[0].db, t) && states[n].db == states[1].db
  {
    hide AffectedBy, EditRows, NoteOf, Target, EditAllowed, StoredTile, Next;
    AfterEdit(w, states, steps, layer, removed, added, t);
    MissedThroughout(w, states, steps, n, NoteOf(w, states[0].db, layer, removed, added), t);
  }

  // The way of a tile the notification does reach.
  ghost predicate OnItsWay(w: Setting, db: Db, note: Note, s: State, t: TileCoord) {
    && s.db == db
    && match s.work
       case Idle => s.queue == [note] || (s.queue == [] && Fresh(w, s, t))
       case Looking(todo, affected) => s.queue == [] && (todo == [note] || (todo == [] && t in affected))
       case Rendering(tiles, _) => s.queue == [] && t in tiles && FetchedFresh(w, s, t)
  }

  lemma OnItsWayStays(w: Setting, db: Db, note: Note, s: State, step: Step, s': State, t: TileCoord)
    requires OnItsWay(w, db, note, s, t) && Next(w, s, step, s') && !step.Edit?
    requires AffectedBy(w, db, note, t) && Regenerable(w, t)
    ensures OnItsWay(w, db, note, s', t)
  {
    hide AffectedBy, Target, Fetch, TileBounds, TileLayersAtZoom, Regenerable;
    if step.Commit? { CommitKeepsFresh(w, s, s', t); }
  }

  lemma CommitKeepsFresh(w: Setting, s: State, s': State, t: TileCoord)
    requires Next(w, s, Commit, s') && t in s.work.tiles && FetchedFresh(w, s, t) && Regenerable(w, t)
    ensures Fresh(w, s', t)
  {
    hide Target, FetchedFresh, AllFetched, Encoded, StoredTile;
    FetchedIsTarget(w, s, t);
  }

  lemma {:induction false} OnItsWayThroughout(w: Setting, states: seq<State>, steps: seq<Step>, n: nat, note: Note, t: TileCoord)
    requires Run(w, states, steps) && 1 <= n < |states|
    requires forall i :: 1 <= i < |steps| ==> !steps[i].Edit?
    requires OnItsWay(w, states[1].db, note, states[1], t)
    requires AffectedBy(w, states[1].db, note, t) && Regenerable(w, t)
    ensures OnItsWay(w, states[1].db, note, states[n], t)
  {
    if n > 1 {
      hide OnItsWay, Next, AffectedBy, Regenerable;
      OnItsWayThroughout(w, states, steps, n - 1, note, t);
      assert Next(w, states[n - 1], steps[n - 1], states[n - 1 + 1]);
      OnItsWayStays(w, states[1].db, note, states[n - 1], steps[n - 1], states[n], t);
    }
  }

  // Once it is worked off, a tile is fresh exactly when the edit left it alone or its
  // notification reaches it.
  lemma SingleEditIsExact(w: Setting, states: seq<State>, steps: seq<Step>, n: nat,
                          layer: string, removed: Option<int>, added: Option<(int, Row)>, t: TileCoord)
    requires Configured(w) && OneEdit(w, states, steps, layer, removed, added) && 1 <= n < |states|
    requires EditAllowed(states[0].db, layer, removed, added)
    requires states[n].work.Idle? && states[n].queue == []
    ensures Fresh(w, states[n], t) <==>
      || Target(w, states[0].db, t) == Target(w, EditRows(states[0].db, layer, removed, added), t)
      || AffectedBy(w, EditRows(states[0].db, layer, removed, added), NoteOf(w, states[0].db, layer, removed, added), t)
  {
    hide AffectedBy, EditRows, NoteOf, Target, EditAllowed, StoredTile, Next, Configured, Regenerable, JustGenerated;
    var note := NoteOf(w, states[0].db, layer, removed, added);
    AfterEdit(w, states, steps, layer, removed, added, t);
    if AffectedBy(w, states[1].db, note, t) {
      AffectedIsRegenerable(w, states[1].db, note, t);
      OnItsWayThroughout(w, states, steps, n, note, t);
    } else {
      UncoveredRowIsMissed(w, states, steps, n, layer, removed, added, t);
    }
  }

  // A tile tells its layers' rows apart.
  lemma TargetTellsRows(w: Setting, db: Db, db': Db, l: LayerConfig, t: TileCoord)
    requires Configured(w) && l in w.source.layers && LayerAppliesAtZoom(w.source, l, t.z) && Regenerable(w, t)
    requires Target(w, db, t) == Target(w, db', t)
    ensures var tl, b := TileLayer(l.name, l, None), TileBounds(w.p, t); Fetch(w.sp, db, tl, b) == Fetch(w.sp, db', tl, b)
  {
    hide Fetch, TileBounds, TileLayersAtZoom, LayerAppliesAtZoom, NamesApart, Encodable, InGrid, Assemble;
    var tls, b, tl := TileLayersAtZoom(w.source, t.z), TileBounds(w.p, t), TileLayer(l.name, l, None);
    forall i | 0 <= i < |tls| && tls[i].name == l.name ensures tls[i] == tl {
      EncodedLayers(w.source, t.z, tls[i]);
      NamedItself(w.source, l, tls[i]);
    }
    EncodedLayers(w.source, t.z, tl);
    var i :| 0 <= i < |tls| && tls[i] == tl;
    AssembleAt(tls, Fetches(w.sp, db, tls, b), |tls|, l.name, Fetch(w.sp, db, tl, b));
    AssembleAt(tls, Fetches(w.sp, db', tls, b), |tls|, l.name, Fetch(w.sp, db', tl, b));
  }

  // A new row is drawn in a tile it shows in exactly when the box queried for it
  // reaches the tile ...
  lemma InsertIsDrawnWhenReached(w: Setting, states: seq<State>, steps: seq<Step>, n: nat, l: LayerConfig, id: int, row: Row, t: TileCoord)
    requires Configured(w) && l in w.source.layers && LayerAppliesAtZoom(w.source, l, t.z) && Regenerable(w, t)
    requires OneEdit(w, states, steps, l.name, None, Some((id, row))) && 1 <= n < |states|
    requires states[n].work.Idle? && states[n].queue == []
    requires ShowsIn(w, row, t)
    ensures Fresh(w, states[n], t) <==> TouchesTile(w.p, w.queried(row.geom.value), t)
  {
    hide TouchesTile, TileBounds, Configured, LayerAppliesAtZoom, InGrid, Target, Run, JustGenerated, RowsOf, EditRows;
    var db := states[0].db;
    AfterEdit(w, states, steps, l.name, None, Some((id, row)), t);
    var db' := states[1].db;
    SingleEditIsExact(w, states, steps, n, l.name, None, Some((id, row)), t);
    EditedRows(db, l.name, None, Some((id, row)), l.name, id);
    var tl := TileLayer(l.name, l, None);
    assert id in Fetch(w.sp, db', tl, TileBounds(w.p, t)) && id !in Fetch(w.sp, db, tl, TileBounds(w.p, t));
    if Target(w, db, t) == Target(w, db', t) { TargetTellsRows(w, db, db', l, t); }
    NoteReaches(w, db', l, Note(l.name, id, None), t);
    assert Recorded(w, db', Note(l.name, id, None)) == [w.queried(row.geom.value)];
  }

  // ... and a deleted one is erased exactly when the box recorded for it does.
  lemma DeleteIsErasedWhenReached(w: Setting, states: seq<State>, steps: seq<Step>, n: nat, l: LayerConfig, id: int, row: Row, t: TileCoord)
    requires Configured(w) && l in w.source.layers && LayerAppliesAtZoom(w.source, l, t.z) && Regenerable(w, t)
    requires OneEdit(w, states, steps, l.name, Some(id), None) && 1 <= n < |states|
    requires states[n].work.Idle? && states[n].queue == []
    requires id in RowsOf(states[0].db, l.name) && RowsOf(states[0].db, l.name)[id] == row && ShowsIn(w, row, t)
    ensures Fresh(w, states[n], t) <==> TouchesTile(w.p, w.sp.box(row.geom.value), t)
  {
    hide TouchesTile, TileBounds, Configured, LayerAppliesAtZoom, InGrid, Target, Run, JustGenerated, RowsOf, EditRows;
    var db := states[0].db;
    AfterEdit(w, states, steps, l.name, Some(id), None, t);
    var db' := states[1].db;
    SingleEditIsExact(w, states, steps, n, l.name, Some(id), None, t);
    EditedRows(db, l.name, Some(id), None, l.name, id);
    var tl := TileLayer(l.name, l, None);
    assert id in Fetch(w.sp, db, tl, TileBounds(w.p, t)) && id !in Fetch(w.sp, db', tl, TileBounds(w.p, t));
    if Target(w, db, t) == Target(w, db', t) { TargetTellsRows(w, db, db', l, t); }
    var note := Note(l.name, id, Some(w.sp.box(row.geom.value)));
    NoteReaches(w, db', l, note, t);
    assert Recorded(w, db', note) == [w.sp.box(row.geom.value)];
  }

  lemma NoteReaches(w: Setting, db: Db, l: LayerConfig, note: Note, t: TileCoord)
    requires Configured(w) && l in w.source.layers && LayerAppliesAtZoom(w.source, l, t.z) && note.layer == l.name
    ensures FindLayer(w.source.layers, l.name) == Some(l)
    ensures AffectedBy(w, db, note, t) <==> exists b :: b in Recorded(w, db, note) && TouchesTile(w.p, b, t)
  {
    hide TouchesTile, Recorded, NamesApart, Encodable;
    LayerIsFound(w.source, l);
  }

  // ------------------------------------------------------------- one batch

  // The areas a batch reports, in order.
  function AreasOf(w: Setting, db: Db, notes: seq<Note>): seq<ChangedArea> {
    if notes == [] then [] else AreasOf(w, db, notes[..|notes| - 1]) + NoteAreas(w, db, notes[|notes| - 1])
  }

  function NoteAreas(w: Setting, db: Db, n: Note): seq<ChangedArea> {
    var l, boxes := FindLayer(w.source.layers, n.layer), Recorded(w, db, n);
    if l.None? then []
    else
      seq(|boxes|, i requires 0 <= i < |boxes| =>
        ChangedArea(boxes[i], LayerMinZoom(w.source, l.value), LayerMaxZoom(w.source, l.value)))
  }

  // What is reported for a notification, in full: for the layer it names the box queried
  // for the row as it is now, if the row passes, and the box recorded for it as it was,
  // each from the layer's first zoom to its last.
  lemma NoteAreasMeaning(w: Setting, db: Db, n: Note, a: ChangedArea)
    ensures a in NoteAreas(w, db, n) <==> (FindLayer(w.source.layers, n.layer).Some? && (
      var l := FindLayer(w.source.layers, n.layer).value;
      var rows := if l.name in db then db[l.name] else map[];
      && a.minZoom == (if l.minZoom.Some? then l.minZoom.value else w.source.minZoom)
      && a.maxZoom == (if l.maxZoom.Some? then l.maxZoom.value else w.source.maxZoom)
      && ((n.id in rows && rows[n.id].passes && rows[n.id].geom.Some? && a.box == w.queried(rows[n.id].geom.value)) || n.oldBox == Some(a.box))))
  {
    var l, boxes := FindLayer(w.source.layers, n.layer), Recorded(w, db, n);
    if l.Some? {
      if a.box in boxes && a.minZoom == LayerMinZoom(w.source, l.value) && a.maxZoom == LayerMaxZoom(w.source, l.value) {
        var i :| 0 <= i < |boxes| && boxes[i] == a.box;
        assert NoteAreas(w, db, n)[i] == a;
      }
    }
  }

  // A tile is affected exactly when one of those areas, at its zoom, touches it.
  lemma AffectedMeaning(w: Setting, db: Db, n: Note, t: TileCoord)
    ensures AffectedBy(w, db, n, t) <==> exists a :: a in NoteAreas(w, db, n) && a.minZoom <= t.z <= a.maxZoom && TouchesTile(w.p, a.box, t)
  {
    hide TouchesTile, Recorded;
    if AffectedBy(w, db, n, t) { NoteReportsAffected(w, db, n, t); }
    if a :| a in NoteAreas(w, db, n) && a.minZoom <= t.z <= a.maxZoom && TouchesTile(w.p, a.box, t) {
      assert a.box in Recorded(w, db, n);
    }
  }

  lemma {:induction false} AreasOfAll(w: Setting, db: Db, notes: seq<Note>, a: ChangedArea)
    ensures a in AreasOf(w, db, notes) <==> exists n :: n in notes && a in NoteAreas(w, db, n)
  {
    hide NoteAreas;
    if notes != [] {
      var before, last := notes[..|notes| - 1], notes[|notes| - 1];
      AreasOfAll(w, db, before, a);
      assert notes == before + [last];
    }
  }

  // `record`
  method Record(w: Setting, l: LayerConfig, b: Bounds, affected: set<TileCoord>, areas: seq<ChangedArea>)
    returns (affected': set<TileCoord>, areas': seq<ChangedArea>)
    ensures forall t :: t in affected' <==> t in affected || Affected(w, l, b, t)
    ensures areas' == areas + [ChangedArea(b, LayerMinZoom(w.source, l), LayerMaxZoom(w.source, l))]
  {
    hide TouchesTile;
    var tiles := TilesForBounds(w.p, b, LayerMinZoom(w.source, l), LayerMaxZoom(w.source, l));
    affected' := affected + set t | t in tiles;
    areas' := areas + [ChangedArea(b, LayerMinZoom(w.source, l), LayerMaxZoom(w.source, l))];
  }

  method RecordNote(w: Setting, db: Db, n: Note, affected: set<TileCoord>, areas: seq<ChangedArea>)
    returns (affected': set<TileCoord>, areas': seq<ChangedArea>)
    ensures forall t :: t in affected' <==> t in affected || AffectedBy(w, db, n, t)
    ensures areas' == areas + NoteAreas(w, db, n)
  {
    hide Affected;
    affected', areas' := affected, areas;
    var found := FindLayer(w.source.layers, n.layer);
    if found.None? { return; }
    var l := found.value;
    var rows := RowsOf(db, l.name);
    if n.id in rows && Visible(rows[n.id]) {
      affected', areas' := Record(w, l, w.queried(rows[n.id].geom.value), affected', areas');
    }
    if n.oldBox.Some? {
      affected', areas' := Record(w, l, n.oldBox.value, affected', areas');
    }
  }

  // `regenerate_single_tile`
  method RegenerateSingleTile(w: Setting, db: Db, t: TileCoord) returns (tile: Option<Content>)
    ensures tile == Generated(w.sp, w.p, w.source, db, t)
    ensures NamesApart(w.source) ==> TileShows(w.sp, db, TileLayersAtZoom(w.source, t.z), TileBounds(w.p, t), Held(tile))
  {
    hide TileShows, NamesApart;
    if NamesApart(w.source) { GeneratedShows(w.sp, w.p, w.source, db, t); }
    var tls := ListTileLayers(w.source, t.z);
    var features := FetchTileFeatures(w.sp, db, tls, TileBounds(w.p, t));
    tile := if features == map[] then None else Some(features);
  }

  ghost predicate BatchAffects(w: Setting, db: Db, notes: seq<Note>, t: TileCoord) {
    exists n :: n in notes && AffectedBy(w, db, n, t)
  }

  // `update_source` with no edits meanwhile: exactly the affected tiles are
  // regenerated, written or deleted, and what changed is reported.
  method UpdateSource(w: Setting, db: Db, notes: seq<Note>, before: Store)
    returns (store: Store, cleared: set<TileCoord>, event: Option<TileEvent>)
    ensures forall t :: t in cleared <==> BatchAffects(w, db, notes, t)
    ensures forall t :: (StoredTile(store, t) ==
      if BatchAffects(w, db, notes, t) then Generated(w.sp, w.p, w.source, db, t) else StoredTile(before, t))
    ensures NamesApart(w.source) ==> forall t :: t in cleared ==> StoredShows(w.sp, w.p, w.source, db, store, t)
    ensures event.None? <==> cleared == {}
    ensures event.Some? ==> event.value == UpdateComplete(w.source.name, |cleared|, set t | t in cleared :: t.z,
      w.source.maxZoom, set n | n in notes :: n.layer, Compact(AreasOf(w, db, notes)))
  {
    hide AffectedBy, Generated, NoteAreas, Compact, NamesApart, StoredShows;
    cleared := {};
    var areas := [];
    var i := 0;
    while i < |notes|
      invariant 0 <= i <= |notes|
      invariant forall t :: t in cleared <==> BatchAffects(w, db, notes[..i], t)
      invariant areas == AreasOf(w, db, notes[..i])
    {
      assert notes[..i + 1] == notes[..i] + [notes[i]];
      cleared, areas := RecordNote(w, db, notes[i], cleared, areas);
      i := i + 1;
    }
    assert notes[..|notes|] == notes;
    store := before;
    if cleared == {} { return store, cleared, None; }
    var todo := cleared;
    while todo != {}
      invariant todo <= cleared
      invariant forall t :: (StoredTile(store, t) ==
        if t in cleared && t !in todo then Generated(w.sp, w.p, w.source, db, t) else StoredTile(before, t))
      decreases |todo|
    {
      var t :| t in todo;
      var tile := RegenerateSingleTile(w, db, t);
      if tile.Some? { store := store[t := tile.value]; } else { store := store - {t}; }
      todo := todo - {t};
    }
    if NamesApart(w.source) { RegeneratedShow(w, db, store, cleared); }
    var compacted := CompactAreas(areas);
    event := Some(UpdateComplete(w.source.name, |cleared|, set t | t in cleared :: t.z, w.source.maxZoom,
      set n | n in notes :: n.layer, compacted));
  }

  lemma RegeneratedShow(w: Setting, db: Db, store: Store, tiles: set<TileCoord>)
    requires NamesApart(w.source) && forall t :: t in tiles ==> StoredTile(store, t) == Generated(w.sp, w.p, w.source, db, t)
    ensures forall t :: t in tiles ==> StoredShows(w.sp, w.p, w.source, db, store, t)
  {
    hide Generated, NamesApart, TileShows, TileLayersAtZoom, TileBounds, StoredTile;
    forall t | t in tiles ensures StoredShows(w.sp, w.p, w.source, db, store, t) { GeneratedShows(w.sp, w.p, w.source, db, t); }
  }

  // The reported areas tell of every tile the batch regenerates.
  lemma {:induction false} AreasReportAffected(w: Setting, db: Db, notes: seq<Note>, t: TileCoord)
    requires BatchAffects(w, db, notes, t)
    ensures exists a :: a in AreasOf(w, db, notes) && a.minZoom <= t.z <= a.maxZoom && TouchesTile(w.p, a.box, t)
  {
    hide TouchesTile;
    var before, last := notes[..|notes| - 1], notes[|notes| - 1];
    assert notes == before + [last];
    if BatchAffects(w, db, before, t) {
      AreasReportAffected(w, db, before, t);
    } else {
      NoteReportsAffected(w, db, last, t);
    }
  }

  lemma NoteReportsAffected(w: Setting, db: Db, n: Note, t: TileCoord)
    requires AffectedBy(w, db, n, t)
    ensures exists a :: a in NoteAreas(w, db, n) && a.minZoom <= t.z <= a.maxZoom && TouchesTile(w.p, a.box, t)
  {
    hide TouchesTile, Recorded;
    var l, boxes := FindLayer(w.source.layers, n.layer).value, Recorded(w, db, n);
    var b :| b in boxes && Affected(w, l, b, t);
    var i :| 0 <= i < |boxes| && boxes[i] == b;
    assert NoteAreas(w, db, n)[i].box == b;
  }
}
