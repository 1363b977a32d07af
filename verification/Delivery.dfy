// From a regenerated tile to the client that draws it: the updater's report
// (src/updater.rs), the client's viewport (src/viewport.rs) and its stream (src/server.rs).

module Delivery {
  import opened Database
  import opened Events
  import opened Tiles
  import opened ViewFilter
  import Sse
  import Updater

  // What a batch that regenerates tiles sends (see Updater.UpdateSource).
  ghost predicate Reported(w: Updater.Setting, db: Db, notes: seq<Updater.Note>, e: TileEvent) {
    e.UpdateComplete? && e.source == w.source.name && e.maxZoom == w.source.maxZoom && e.areas == Compact(Updater.AreasOf(w, db, notes))
  }

  // The client draws the tile: at one of the zooms of its view, inside the view.
  ghost predicate Draws(w: Updater.Setting, v: View, t: TileCoord) {
    && v.zoom.Some? && v.zoom.value >= 0.0 && v.latRange.Some?
    && (v.sources.Some? ==> w.source.name in v.sources.value)
    && DrawsZoom(v.zoom.value, w.source.maxZoom, t.z)
    && InView(w.p, v.lonRanges, v.latRange.value, t)
  }

  // The recorded boxes altering the tile are boxes of the world that reach the view.
  ghost predicate AreasReach(w: Updater.Setting, db: Db, notes: seq<Updater.Note>, v: View, t: TileCoord)
    requires v.latRange.Some?
  {
    forall a :: a in Updater.AreasOf(w, db, notes) && Alters(w.p, a, t) ==> LatitudesValid(a) && ReachesView(w.p, a, v.latRange.value)
  }

  // A client wants the event of every batch that regenerates a tile it draws.
  lemma RegeneratedIsWanted(w: Updater.Setting, db: Db, notes: seq<Updater.Note>, e: TileEvent, v: View, t: TileCoord)
    requires Mercator(w.p) && Updater.BatchAffects(w, db, notes, t) && Reported(w, db, notes, e)
    requires Draws(w, v, t) && AreasReach(w, db, notes, v, t)
    ensures Wants(w.p, v, e)
  {
    hide Mercator, Wants, InView, TouchesTile, LatitudesValid, ReachesView, DrawsZoom, Updater.BatchAffects, Updater.AreasOf, Compact;
    Updater.AreasReportAffected(w, db, notes, t);
    var areas := Updater.AreasOf(w, db, notes);
    var a :| a in areas && a.minZoom <= t.z <= a.maxZoom && TouchesTile(w.p, a.box, t);
    CompactedChangeIsWanted(w.p, v, e, areas, a, t);
  }

  // Told of event i: by a frame that tells everything it does, or a request to reload.
  ghost predicate Told(u: Sse.Setup, frames: seq<Sse.Frame>, i: nat)
    requires Sse.InLog(u, i)
  {
    || (exists k :: 0 <= k < |frames| && Sse.Holds(frames[k], i) && Includes(frames[k].event, u.log[i - 1]))
    || Sse.Resynced(frames, i)
  }

  // So, between any two steps of its connection, it has been told of the change or the
  // event comes after the id it would resume from; and when the stream ends it has.
  lemma RegeneratedIsTold(w: Updater.Setting, db: Db, notes: seq<Updater.Note>, v: View, t: TileCoord,
                          u: Sse.Setup, conns: seq<Sse.Conn>, steps: seq<Sse.Step>, n: nat, i: nat)
    requires Mercator(w.p) && Updater.BatchAffects(w, db, notes, t) && Draws(w, v, t) && AreasReach(w, db, notes, v, t)
    requires Sse.Run(u, conns, steps) && n < |conns| && forall e :: u.wants(e) <==> Wants(w.p, v, e)
    requires Sse.InLog(u, i) && Sse.Base(u) < i && Reported(w, db, notes, u.log[i - 1])
    ensures i <= Sse.LastId(conns[n].frames) ==> Told(u, conns[n].frames, i)
    ensures n > 0 && steps[n - 1].Close? && i <= conns[n].available ==> Told(u, conns[n].frames, i)
  {
    assert |conns| == |steps| + 1;
    hide Mercator, Wants, Draws, AreasReach, Reported, Updater.BatchAffects, Sse.Run, Sse.LastId, Includes, Sse.Resynced, Sse.Holds;
    RegeneratedIsWanted(w, db, notes, u.log[i - 1], v, t);
    assert Sse.Wanted(u, i);
    Sse.ResumeIsSafe(u, conns, steps, n);
    if n > 0 && steps[n - 1].Close? && i <= conns[n].available { Sse.ClosedIsComplete(u, conns, steps, n, i); }
    if k :| 0 <= k < |conns[n].frames| && Sse.Holds(conns[n].frames[k], i) { Sse.SentExactlyOnce(u, conns, steps, n, k, i); }
  }
}
