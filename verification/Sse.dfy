// One connection's event stream (src/server.rs): replay, live events, the cooldown's
// pending events, and the ids a client resumes from.

module Sse {
  import opened Options
  import opened EventBus
  import opened Events
  import opened Sorting

  // A source's events accumulated during a cooldown; `ids` are the events' own.
  datatype Pending = Pending(event: TileEvent, first: nat, last: nat, ids: seq<nat>)

  // What is sent: an event under an id, carrying the events `ids`; a request to
  // reload everything up to an event; the end of the replay.
  datatype Frame = Update(id: nat, event: TileEvent, ids: seq<nat>) | Resync(upTo: nat) | Ready(id: nat)

  // Fixed for a connection. `log` is every event the bus ever sends, in order;
  // `latest` how many it had sent when the client subscribed.
  datatype Setup = Setup(log: seq<TileEvent>, wants: TileEvent -> bool, cooldown: bool, since: Option<nat>, latest: nat)

  datatype Conn = Conn(available: nat, cursor: nat, pending: map<string, Pending>, frames: seq<Frame>, open: bool)

  predicate InLog(u: Setup, i: nat) { 1 <= i <= |u.log| }

  predicate Wanted(u: Setup, i: nat) {
    InLog(u, i) && u.wants(u.log[i - 1])
  }

  // ------------------------------------------------------------- merged events

  // Wanted events of one source, in order.
  ghost predicate Batch(u: Setup, source: string, ids: seq<nat>) {
    && ids != []
    && (forall k :: 0 <= k < |ids| ==> Wanted(u, ids[k]) && u.log[ids[k] - 1].source == source)
    && (forall j, k :: 0 <= j < k < |ids| ==> ids[j] < ids[k])
  }

  ghost function MergeIds(u: Setup, source: string, ids: seq<nat>): TileEvent
    requires Batch(u, source, ids)
  {
    if |ids| == 1 then u.log[ids[0] - 1]
    else Merge(MergeIds(u, source, ids[..|ids| - 1]), u.log[ids[|ids| - 1] - 1])
  }

  ghost function EventsOf(u: Setup, source: string, ids: seq<nat>): seq<TileEvent>
    requires Batch(u, source, ids)
  {
    seq(|ids|, k requires 0 <= k < |ids| => u.log[ids[k] - 1])
  }

  lemma EventsOfPrefix(u: Setup, source: string, ids: seq<nat>)
    requires Batch(u, source, ids) && |ids| > 1
    ensures Batch(u, source, ids[..|ids| - 1])
    ensures var events := EventsOf(u, source, ids);
      |events| == |ids| && events[..|ids| - 1] == EventsOf(u, source, ids[..|ids| - 1]) && events[|ids| - 1] == u.log[ids[|ids| - 1] - 1]
  {
    hide Wanted;
  }

  lemma {:induction false} MergedIsFold(u: Setup, source: string, ids: seq<nat>)
    requires Batch(u, source, ids)
    ensures MergeIds(u, source, ids) == MergeAll(EventsOf(u, source, ids))
  {
    hide Merge, Wanted;
    var before := ids[..|ids| - 1];
    if |ids| > 1 {
      MergedIsFold(u, source, before);
      EventsOfPrefix(u, source, ids);
      hide EventsOf, Batch;
    }
  }

  // A batch's merge tells everything each of its events does.
  lemma MergedIncludes(u: Setup, source: string, ids: seq<nat>, i: nat)
    requires Batch(u, source, ids) && i in ids
    ensures Includes(MergeIds(u, source, ids), u.log[i - 1])
  {
    hide Includes, MergeIds;
    var events := EventsOf(u, source, ids);
    MergedIsFold(u, source, ids);
    assert AllOf(events, source);
    var k :| 0 <= k < |ids| && ids[k] == i;
    assert events[k] == u.log[i - 1];
    FoldIncludesEach(events, source, u.log[i - 1]);
  }

  // ------------------------------------------------------------- flushing

  ghost predicate IsWaiting(rest: map<string, Pending>, held: Option<nat>) {
    if held.None? then rest == map[]
    else (exists s :: s in rest && rest[s].first == held.value) && forall s :: s in rest ==> held.value <= rest[s].first
  }

  // The id a flushed event is sent under: below the oldest event still waiting.
  function HeldId(last: nat, held: Option<nat>): nat {
    if held.None? then last else Min(last, if held.value == 0 then 0 else held.value - 1)
  }

  function Sent(p: Pending, held: Option<nat>): Frame {
    Update(HeldId(p.last, held), p.event, p.ids)
  }

  function Without(pending: map<string, Pending>, due: set<string>): map<string, Pending> {
    map s | s in pending && s !in due :: pending[s]
  }

  // The due sources' events, oldest last id first.
  ghost predicate Flushes(pending: map<string, Pending>, due: set<string>, batch: seq<Pending>, held: Option<nat>) {
    && (forall p :: p in batch <==> exists s :: s in due && s in pending && pending[s] == p)
    && (forall j, k :: 0 <= j < k < |batch| ==> batch[j].last < batch[k].last)
    && IsWaiting(Without(pending, due), held)
  }

  function Frames(batch: seq<Pending>, held: Option<nat>): seq<Frame> {
    seq(|batch|, k requires 0 <= k < |batch| => Sent(batch[k], held))
  }

  // ------------------------------------------------------------- steps

  // Where the replay starts, and whether it can reach back far enough.
  function ReplayFrom(u: Setup): nat {
    if u.since.None? || u.since.value > u.latest then u.latest else Max(u.since.value, u.latest - Retained(u.latest))
  }

  predicate Complete(u: Setup) {
    u.since.None? || u.latest - Retained(u.latest) <= u.since.value <= u.latest
  }

  function Replay(u: Setup, from: nat, upto: nat): seq<Frame>
    requires upto <= |u.log|
  {
    if upto <= from then []
    else Replay(u, from, upto - 1) + (if Wanted(u, upto) then [Update(upto, u.log[upto - 1], [upto])] else [])
  }

  function Opening(u: Setup): seq<Frame>
    requires u.latest <= |u.log|
  {
    (if Complete(u) then [] else [Resync(u.latest)]) + Replay(u, ReplayFrom(u), u.latest) + [Ready(u.latest)]
  }

  ghost predicate Start(u: Setup, c: Conn) {
    u.latest <= |u.log| && c == Conn(u.latest, u.latest, map[], Opening(u), true)
  }

  datatype Step =
    | Send
    | Receive
    | Lag
    | Flush(due: set<string>, batch: seq<Pending>, held: Option<nat>)
    | Close(batch: seq<Pending>)

  function Accumulated(u: Setup, c: Conn, i: nat): Pending
    requires InLog(u, i)
  {
    var e := u.log[i - 1];
    if e.source in c.pending then
      var p := c.pending[e.source];
      Pending(Merge(p.event, e), p.first, i, p.ids + [i])
    else Pending(e, i, i, [i])
  }

  ghost predicate Next(u: Setup, c: Conn, step: Step, c': Conn) {
    && c.open
    && match step
       case Send =>
         c.available < |u.log| && c' == c.(available := c.available + 1)
       case Receive =>
         && c.cursor < c.available <= |u.log| && c.available - c.cursor <= EVENT_HISTORY
         && var i := c.cursor + 1;
         if !Wanted(u, i) then c' == c.(cursor := i)
         else if !u.cooldown then c' == c.(cursor := i, frames := c.frames + [Update(i, u.log[i - 1], [i])])
         else c' == c.(cursor := i, pending := c.pending[u.log[i - 1].source := Accumulated(u, c, i)])
       case Lag =>
         && c.available - c.cursor > EVENT_HISTORY
         && var skipped := c.available - EVENT_HISTORY;
         c' == c.(cursor := skipped, frames := c.frames + [Resync(skipped)])
       case Flush(due, batch, held) =>
         && Flushes(c.pending, due, batch, held)
         && c' == c.(pending := Without(c.pending, due), frames := c.frames + Frames(batch, held))
       case Close(batch) =>
         && c.cursor == c.available && Flushes(c.pending, c.pending.Keys, batch, None)
         && c' == c.(pending := map[], frames := c.frames + Frames(batch, None), open := false)
  }

  // ------------------------------------------------------------- what a client has

  predicate Holds(f: Frame, i: nat) { f.Update? && i in f.ids }

  ghost predicate Delivered(frames: seq<Frame>, i: nat) {
    exists k :: 0 <= k < |frames| && Holds(frames[k], i)
  }

  ghost predicate Resynced(frames: seq<Frame>, i: nat) {
    exists k :: 0 <= k < |frames| && frames[k].Resync? && i <= frames[k].upTo
  }

  ghost predicate Waits(pending: map<string, Pending>, i: nat) {
    exists s :: s in pending && i in pending[s].ids
  }

  // The id the client resumes from: the last one sent.
  function LastId(frames: seq<Frame>): nat {
    if frames == [] then 0
    else
      var f := frames[|frames| - 1];
      match f
      case Update(id, _, _) => id
      case Ready(id) => id
      case Resync(_) => LastId(frames[..|frames| - 1])
  }

  // What the client had before it connected.
  function Base(u: Setup): nat {
    if u.since.None? then u.latest else if Complete(u) then u.since.value else 0
  }

  // Resuming from a point in the stream loses nothing: every wanted event up to
  // the last id sent is in what was sent.
  ghost predicate SafeToResume(u: Setup, frames: seq<Frame>) {
    forall i: nat {:trigger Wanted(u, i)} :: Base(u) < i <= LastId(frames) && Wanted(u, i) ==> Delivered(frames, i) || Resynced(frames, i)
  }

  // ------------------------------------------------------------- the invariant

  ghost predicate PendingValid(u: Setup, c: Conn, source: string, p: Pending) {
    && Batch(u, source, p.ids)
    && p.first == p.ids[0] && p.last == p.ids[|p.ids| - 1] <= c.cursor
    && p.event == MergeIds(u, source, p.ids)
    && LastId(c.frames) < p.first && Base(u) < p.first
  }

  ghost predicate FrameValid(u: Setup, f: Frame) {
    f.Update? ==> Batch(u, f.event.source, f.ids) && f.event == MergeIds(u, f.event.source, f.ids)
  }

  ghost predicate Shape(u: Setup, c: Conn) {
    && u.latest <= c.cursor <= c.available <= |u.log|
    && LastId(c.frames) <= c.cursor && Base(u) <= c.cursor
    && (forall s :: s in c.pending ==> PendingValid(u, c, s, c.pending[s]))
    && (forall k :: 0 <= k < |c.frames| ==> FrameValid(u, c.frames[k]))
  }

  ghost predicate Accounted(u: Setup, c: Conn, i: nat) {
    Base(u) < i <= c.cursor && Wanted(u, i) ==> Delivered(c.frames, i) || Resynced(c.frames, i) || Waits(c.pending, i)
  }

  ghost predicate AtMostOnce(frames: seq<Frame>, i: nat) {
    forall j, k :: 0 <= j < k < |frames| && Holds(frames[j], i) ==> !Holds(frames[k], i)
  }

  // No event is sent twice, and none sent that still waits.
  ghost predicate Once(c: Conn, i: nat) {
    && AtMostOnce(c.frames, i)
    && (Delivered(c.frames, i) ==> !Waits(c.pending, i))
    && (i > c.cursor ==> !Delivered(c.frames, i) && !Waits(c.pending, i))
  }

  // What was sent before, with ids that do not go back, and more.
  ghost predicate GoesOn(before: seq<Frame>, frames: seq<Frame>) {
    && before <= frames
    && forall k {:trigger frames[k]} :: |before| <= k < |frames| ==> LastId(frames[..k]) <= LastId(frames[..k + 1])
  }

  // ------------------------------------------------------------- small facts

  lemma LastIdAppend(frames: seq<Frame>, f: Frame)
    ensures LastId(frames + [f]) == match f case Update(id, _, _) => id case Ready(id) => id case Resync(_) => LastId(frames)
  {
    assert (frames + [f])[..|frames|] == frames;
  }

  lemma {:induction false} MergedSource(u: Setup, source: string, ids: seq<nat>)
    requires Batch(u, source, ids)
    ensures MergeIds(u, source, ids).source == source
  {
    hide Compact;
    if |ids| > 1 { MergedSource(u, source, ids[..|ids| - 1]); }
  }

  lemma SingleBatch(u: Setup, i: nat)
    requires Wanted(u, i)
    ensures Batch(u, u.log[i - 1].source, [i]) && MergeIds(u, u.log[i - 1].source, [i]) == u.log[i - 1]
  {}

  lemma LongerBatch(u: Setup, source: string, ids: seq<nat>, i: nat)
    requires Batch(u, source, ids) && Wanted(u, i) && u.log[i - 1].source == source && ids[|ids| - 1] < i
    ensures Batch(u, source, ids + [i])
    ensures MergeIds(u, source, ids + [i]) == Merge(MergeIds(u, source, ids), u.log[i - 1])
  {
    assert (ids + [i])[..|ids|] == ids;
    forall j, k | 0 <= j < k < |ids + [i]| ensures (ids + [i])[j] < (ids + [i])[k] {
      assert ids[j] <= ids[|ids| - 1];
    }
  }

  // Appending a frame, seen from one event.
  lemma AppendHolds(frames: seq<Frame>, f: Frame, i: nat)
    ensures Delivered(frames + [f], i) <==> Delivered(frames, i) || Holds(f, i)
    ensures Resynced(frames + [f], i) <==> Resynced(frames, i) || (f.Resync? && i <= f.upTo)
    ensures AtMostOnce(frames + [f], i) <==> AtMostOnce(frames, i) && !(Delivered(frames, i) && Holds(f, i))
  {
    var more := frames + [f];
    assert more[|frames|] == f;
    forall k | 0 <= k < |frames| ensures more[k] == frames[k] {}
    if k :| 0 <= k < |frames| && Holds(frames[k], i) { assert Holds(more[k], i); }
    if k :| 0 <= k < |frames| && frames[k].Resync? && i <= frames[k].upTo { assert more[k].Resync?; }
    if AtMostOnce(more, i) {
      forall j, k | 0 <= j < k < |frames| && Holds(frames[j], i) ensures !Holds(frames[k], i) { assert Holds(more[j], i); }
    }
  }

  lemma GoesOnAppend(frames: seq<Frame>, f: Frame)
    requires LastId(frames) <= LastId(frames + [f])
    ensures GoesOn(frames, frames + [f])
  {
    assert (frames + [f])[..|frames|] == frames;
    assert (frames + [f])[..|frames| + 1] == frames + [f];
  }

  // ------------------------------------------------------------- receiving

  ghost predicate Inv(u: Setup, c: Conn, i: nat) {
    Accounted(u, c, i) && Once(c, i)
  }

  ghost predicate FramesValid(u: Setup, frames: seq<Frame>) {
    forall k :: 0 <= k < |frames| ==> FrameValid(u, frames[k])
  }

  lemma FramesValidAppend(u: Setup, frames: seq<Frame>, f: Frame)
    requires FramesValid(u, frames) && FrameValid(u, f)
    ensures FramesValid(u, frames + [f])
  {
    hide FrameValid;
  }

  lemma ShapeParts(u: Setup, c: Conn)
    requires Shape(u, c)
    ensures u.latest <= c.cursor <= c.available <= |u.log| && LastId(c.frames) <= c.cursor && Base(u) <= c.cursor
    ensures FramesValid(u, c.frames)
  {
    hide PendingValid, FrameValid, LastId;
  }

  // Pending events stay valid while no id is sent and the cursor moves on.
  lemma PendingStays(u: Setup, c: Conn, c': Conn)
    requires Shape(u, c) && c'.pending == c.pending && c.cursor <= c'.cursor && LastId(c'.frames) == LastId(c.frames)
    ensures forall s :: s in c'.pending ==> PendingValid(u, c', s, c'.pending[s])
  {
    hide Batch, MergeIds, LastId, FrameValid;
    forall s | s in c'.pending ensures PendingValid(u, c', s, c'.pending[s]) { assert PendingValid(u, c, s, c.pending[s]); }
  }

  lemma SendKeeps(u: Setup, c: Conn, c': Conn, i: nat)
    requires Shape(u, c) && Inv(u, c, i) && c.available < |u.log| && c' == c.(available := c.available + 1)
    ensures Shape(u, c') && Inv(u, c', i) && GoesOn(c.frames, c'.frames)
  {
    ShapeParts(u, c);
    PendingStays(u, c, c');
    hide Wanted, PendingValid, FrameValid, LastId, Delivered, Resynced, AtMostOnce, Waits;
  }

  lemma LagKeeps(u: Setup, c: Conn, c': Conn, i: nat)
    requires Shape(u, c) && Inv(u, c, i) && c.available - c.cursor > EVENT_HISTORY
    requires c' == c.(cursor := c.available - EVENT_HISTORY, frames := c.frames + [Resync(c.available - EVENT_HISTORY)])
    ensures Shape(u, c') && Inv(u, c', i) && GoesOn(c.frames, c'.frames)
  {
    var f := Resync(c'.cursor);
    ShapeParts(u, c);
    LastIdAppend(c.frames, f);
    AppendHolds(c.frames, f, i);
    GoesOnAppend(c.frames, f);
    ResyncHoldsNothing(u, c'.cursor, i);
    PendingStays(u, c, c');
    FramesValidAppend(u, c.frames, f);
    hide Wanted, PendingValid, Holds, Delivered, Resynced, AtMostOnce, FrameValid, LastId, Waits, GoesOn;
    forall k | 0 <= k < |c'.frames| ensures FrameValid(u, c'.frames[k]) {}
  }

  lemma ResyncHoldsNothing(u: Setup, upTo: nat, i: nat)
    ensures !Holds(Resync(upTo), i) && FrameValid(u, Resync(upTo))
  {}

  lemma SkipKeeps(u: Setup, c: Conn, c': Conn, i: nat)
    requires Shape(u, c) && Inv(u, c, i) && c.cursor < c.available && !Wanted(u, c.cursor + 1) && c' == c.(cursor := c.cursor + 1)
    ensures Shape(u, c') && Inv(u, c', i) && GoesOn(c.frames, c'.frames)
  {
    ShapeParts(u, c);
    PendingStays(u, c, c');
    hide Wanted, PendingValid, FrameValid, LastId, Delivered, Resynced, AtMostOnce, Waits;
  }

  lemma ForwardKeeps(u: Setup, c: Conn, c': Conn, i: nat)
    requires Shape(u, c) && Inv(u, c, i) && c.cursor < c.available && Wanted(u, c.cursor + 1) && c.pending == map[]
    requires c' == c.(cursor := c.cursor + 1, frames := c.frames + [Update(c.cursor + 1, u.log[c.cursor], [c.cursor + 1])])
    ensures Shape(u, c') && Inv(u, c', i) && GoesOn(c.frames, c'.frames)
  {
    var now := c.cursor + 1;
    var f := Update(now, u.log[now - 1], [now]);
    ShapeParts(u, c);
    SingleBatch(u, now);
    LastIdAppend(c.frames, f);
    AppendHolds(c.frames, f, i);
    GoesOnAppend(c.frames, f);
    FramesValidAppend(u, c.frames, f);
    hide Batch, MergeIds, PendingValid, Delivered, Resynced, AtMostOnce, FrameValid, LastId, GoesOn, Wanted;
    forall k | 0 <= k < |c'.frames| ensures FrameValid(u, c'.frames[k]) {}
  }

  lemma BatchNotEmpty(u: Setup, source: string, ids: seq<nat>)
    requires Batch(u, source, ids)
    ensures ids != [] && ids[0] <= ids[|ids| - 1]
    ensures forall i :: i in ids ==> ids[0] <= i <= ids[|ids| - 1]
  {}

  lemma BatchHolds(u: Setup, source: string, ids: seq<nat>, i: nat)
    requires Batch(u, source, ids) && i in ids
    ensures Wanted(u, i) && u.log[i - 1].source == source
  {}

  lemma NowIsInLog(u: Setup, i: nat)
    requires Wanted(u, i)
    ensures InLog(u, i)
  {}

  // An event received during the cooldown.
  ghost predicate Accumulates(u: Setup, c: Conn, c': Conn) {
    && c.cursor < c.available && Wanted(u, c.cursor + 1)
    && c' == c.(cursor := c.cursor + 1, pending := c.pending[u.log[c.cursor].source := Accumulated(u, c, c.cursor + 1)])
  }

  lemma AccumulatedIsValid(u: Setup, c: Conn, c': Conn)
    requires Shape(u, c) && Accumulates(u, c, c')
    ensures PendingValid(u, c', u.log[c.cursor].source, Accumulated(u, c, c.cursor + 1))
  {
    hide Merge, MergeIds, Batch, FrameValid, LastId;
    var now := c.cursor + 1;
    var source := u.log[now - 1].source;
    SingleBatch(u, now);
    BatchNotEmpty(u, source, [now]);
    if source in c.pending {
      var p := c.pending[source];
      assert PendingValid(u, c, source, p);
      BatchNotEmpty(u, source, p.ids);
      LongerBatch(u, source, p.ids, now);
    }
  }

  lemma AccumulateWaits(u: Setup, c: Conn, c': Conn, i: nat)
    requires Accumulates(u, c, c')
    ensures Waits(c'.pending, i) <==> Waits(c.pending, i) || i == c.cursor + 1
  {
    hide Merge, Wanted;
    var now := c.cursor + 1;
    NowIsInLog(u, now);
    var source := u.log[now - 1].source;
    assert c'.pending[source].ids == (if source in c.pending then c.pending[source].ids else []) + [now];
    if s :| s in c.pending && i in c.pending[s].ids { assert i in c'.pending[s].ids; }
    if i == now { assert i in c'.pending[source].ids; }
  }

  lemma AccumulateKeeps(u: Setup, c: Conn, c': Conn, i: nat)
    requires Shape(u, c) && Inv(u, c, i) && Accumulates(u, c, c')
    ensures Shape(u, c') && Inv(u, c', i) && GoesOn(c.frames, c'.frames)
  {
    AccumulateShape(u, c, c');
    AccumulateWaits(u, c, c', i);
    assert c'.frames == c.frames && c'.cursor == c.cursor + 1;
    hide Accumulates, Shape, Delivered, Resynced, AtMostOnce, Waits, LastId, Wanted;
  }

  lemma AccumulateShape(u: Setup, c: Conn, c': Conn)
    requires Shape(u, c) && Accumulates(u, c, c')
    ensures Shape(u, c')
  {
    ShapeParts(u, c);
    AccumulatedIsValid(u, c, c');
    AccumulateOthers(u, c, c');
    AccumulatesParts(u, c, c');
    hide *;
    forall s | s in c'.pending ensures PendingValid(u, c', s, c'.pending[s]) {}
    ShapeOf(u, c');
  }

  lemma AccumulatesParts(u: Setup, c: Conn, c': Conn)
    requires Accumulates(u, c, c')
    ensures c'.cursor == c.cursor + 1 <= c'.available == c.available && c'.frames == c.frames && c'.open == c.open
    ensures InLog(u, c.cursor + 1) && c'.pending == c.pending[u.log[c.cursor].source := Accumulated(u, c, c.cursor + 1)]
  {
    hide Accumulated;
  }

  lemma ShapeOf(u: Setup, c: Conn)
    requires u.latest <= c.cursor <= c.available <= |u.log| && LastId(c.frames) <= c.cursor && Base(u) <= c.cursor
    requires (forall s :: s in c.pending ==> PendingValid(u, c, s, c.pending[s])) && FramesValid(u, c.frames)
    ensures Shape(u, c)
  {
    hide PendingValid, FrameValid, LastId, Base;
  }

  lemma AccumulateOthers(u: Setup, c: Conn, c': Conn)
    requires Shape(u, c) && Accumulates(u, c, c')
    ensures forall s :: s in c.pending && s != u.log[c.cursor].source ==> PendingValid(u, c', s, c'.pending[s])
  {
    hide Batch, Merge, MergeIds, Accumulated, FrameValid, LastId;
    forall s | s in c.pending && s != u.log[c.cursor].source ensures PendingValid(u, c', s, c'.pending[s]) {
      assert PendingValid(u, c, s, c.pending[s]);
    }
  }

  // ------------------------------------------------------------- flushing, frame by frame

  // The stream after k frames of a batch.
  function UpTo(frames: seq<Frame>, batch: seq<Pending>, held: Option<nat>, k: nat): seq<Frame>
    requires k <= |batch|
  {
    frames + Frames(batch, held)[..k]
  }

  lemma UpToNext(frames: seq<Frame>, batch: seq<Pending>, held: Option<nat>, k: nat)
    requires k < |batch|
    ensures UpTo(frames, batch, held, k + 1) == UpTo(frames, batch, held, k) + [Sent(batch[k], held)]
  {}

  lemma UpToLastId(frames: seq<Frame>, batch: seq<Pending>, held: Option<nat>, k: nat)
    requires k <= |batch|
    ensures LastId(UpTo(frames, batch, held, k)) == if k == 0 then LastId(frames) else HeldId(batch[k - 1].last, held)
  {
    if k > 0 {
      UpToNext(frames, batch, held, k - 1);
      LastIdAppend(UpTo(frames, batch, held, k - 1), Sent(batch[k - 1], held));
    } else {
      assert UpTo(frames, batch, held, 0) == frames;
    }
  }

  // A batch item as a source's pending event.
  lemma ItemIsPending(u: Setup, c: Conn, due: set<string>, batch: seq<Pending>, held: Option<nat>, k: nat) returns (s: string)
    requires Shape(u, c) && Flushes(c.pending, due, batch, held) && k < |batch|
    ensures s in due && s in c.pending && c.pending[s] == batch[k] && PendingValid(u, c, s, batch[k])
  {
    hide PendingValid, FrameValid, IsWaiting;
    assert batch[k] in batch;
    s :| s in due && s in c.pending && c.pending[s] == batch[k];
  }

  // The pending events of two sources share none.
  lemma SourcesShareNothing(u: Setup, c: Conn, s: string, r: string, i: nat)
    requires Shape(u, c) && s in c.pending && r in c.pending && i in c.pending[s].ids && i in c.pending[r].ids
    ensures s == r
  {
    hide Batch, MergeIds, FrameValid;
    assert PendingValid(u, c, s, c.pending[s]) && PendingValid(u, c, r, c.pending[r]);
    BatchHolds(u, s, c.pending[s].ids, i);
    BatchHolds(u, r, c.pending[r].ids, i);
  }

  lemma ItemsShareNothing(u: Setup, c: Conn, due: set<string>, batch: seq<Pending>, held: Option<nat>, j: nat, k: nat, i: nat)
    requires Shape(u, c) && Flushes(c.pending, due, batch, held) && j < k < |batch| && i in batch[j].ids
    ensures i !in batch[k].ids
  {
    hide Shape, PendingValid, IsWaiting;
    var s := ItemIsPending(u, c, due, batch, held, j);
    var r := ItemIsPending(u, c, due, batch, held, k);
    if i in batch[k].ids { SourcesShareNothing(u, c, s, r, i); }
  }

  // What waits starts after the last id sent.
  lemma HeldIsAhead(u: Setup, c: Conn, due: set<string>, batch: seq<Pending>, held: Option<nat>)
    requires Shape(u, c) && Flushes(c.pending, due, batch, held) && held.Some?
    ensures LastId(c.frames) < held.value && Base(u) < held.value
  {
    hide Batch, MergeIds, FrameValid, LastId;
    var s :| s in Without(c.pending, due) && Without(c.pending, due)[s].first == held.value;
    assert PendingValid(u, c, s, c.pending[s]);
  }

  lemma ItemIsAhead(u: Setup, c: Conn, due: set<string>, batch: seq<Pending>, held: Option<nat>, k: nat)
    requires Shape(u, c) && Flushes(c.pending, due, batch, held) && k < |batch|
    ensures LastId(c.frames) < batch[k].first <= batch[k].last <= c.cursor && batch[k].first in batch[k].ids
    ensures Batch(u, batch[k].event.source, batch[k].ids) && batch[k].event == MergeIds(u, batch[k].event.source, batch[k].ids)
    ensures Base(u) < batch[k].first && forall i :: i in batch[k].ids ==> batch[k].first <= i
  {
    hide Shape, Flushes, Batch, MergeIds, FrameValid, LastId;
    var s := ItemIsPending(u, c, due, batch, held, k);
    BatchNotEmpty(u, s, batch[k].ids);
    MergedSource(u, s, batch[k].ids);
  }

  // Ids do not go back within a batch, nor against what was sent before.
  lemma FlushedIdsGoOn(u: Setup, c: Conn, due: set<string>, batch: seq<Pending>, held: Option<nat>, k: nat)
    requires Shape(u, c) && Flushes(c.pending, due, batch, held) && k < |batch|
    ensures LastId(UpTo(c.frames, batch, held, k)) <= LastId(UpTo(c.frames, batch, held, k + 1)) <= c.cursor
  {
    assert k > 0 ==> batch[k - 1].last < batch[k].last;
    hide *;
    UpToLastId(c.frames, batch, held, k);
    UpToLastId(c.frames, batch, held, k + 1);
    ItemIsAhead(u, c, due, batch, held, k);
    if held.Some? { HeldIsAhead(u, c, due, batch, held); }
    HeldBounds(LastId(c.frames), batch[k].last, held);
    if k > 0 { HeldGrows(batch[k - 1].last, batch[k].last, held); }
  }

  lemma HeldBounds(before: nat, last: nat, held: Option<nat>)
    requires before < last && (held.Some? ==> before < held.value)
    ensures before <= HeldId(last, held) <= last
  {}

  lemma HeldGrows(a: nat, b: nat, held: Option<nat>)
    requires a <= b
    ensures HeldId(a, held) <= HeldId(b, held)
  {}

  lemma FlushGoesOn(u: Setup, c: Conn, due: set<string>, batch: seq<Pending>, held: Option<nat>)
    requires Shape(u, c) && Flushes(c.pending, due, batch, held)
    ensures GoesOn(c.frames, c.frames + Frames(batch, held))
  {
    var frames := c.frames + Frames(batch, held);
    hide Shape, Flushes, LastId;
    forall k | |c.frames| <= k < |frames|
      ensures LastId(frames[..k]) <= LastId(frames[..k + 1])
    {
      var j := k - |c.frames|;
      FlushedIdsGoOn(u, c, due, batch, held, j);
      assert frames[..k] == UpTo(c.frames, batch, held, j);
      assert frames[..k + 1] == UpTo(c.frames, batch, held, j + 1);
    }
  }

  // What k frames of a batch deliver.
  ghost predicate InFirst(batch: seq<Pending>, k: nat, i: nat) {
    exists j :: 0 <= j < k <= |batch| && i in batch[j].ids
  }

  lemma {:induction false} UpToDelivers(frames: seq<Frame>, batch: seq<Pending>, held: Option<nat>, k: nat, i: nat)
    requires k <= |batch|
    ensures Delivered(UpTo(frames, batch, held, k), i) <==> Delivered(frames, i) || InFirst(batch, k, i)
    ensures Resynced(UpTo(frames, batch, held, k), i) <==> Resynced(frames, i)
  {
    hide Delivered, Resynced;
    if k == 0 {
      assert UpTo(frames, batch, held, 0) == frames;
    } else {
      hide UpTo;
      UpToDelivers(frames, batch, held, k - 1, i);
      UpToNext(frames, batch, held, k - 1);
      AppendHolds(UpTo(frames, batch, held, k - 1), Sent(batch[k - 1], held), i);
      if i in batch[k - 1].ids { assert InFirst(batch, k, i); }
    }
  }

  lemma {:induction false} UpToOnce(u: Setup, c: Conn, due: set<string>, batch: seq<Pending>, held: Option<nat>, k: nat, i: nat)
    requires Shape(u, c) && Flushes(c.pending, due, batch, held) && k <= |batch|
    requires AtMostOnce(c.frames, i) && (Delivered(c.frames, i) ==> !Waits(c.pending, i))
    ensures AtMostOnce(UpTo(c.frames, batch, held, k), i)
  {
    hide Delivered, Resynced, AtMostOnce, Shape, Flushes, Waits, Frames, Sent;
    if k == 0 {
      assert UpTo(c.frames, batch, held, 0) == c.frames;
    } else {
      UpToOnce(u, c, due, batch, held, k - 1, i);
      UpToNext(c.frames, batch, held, k - 1);
      AppendHolds(UpTo(c.frames, batch, held, k - 1), Sent(batch[k - 1], held), i);
      UpToDelivers(c.frames, batch, held, k - 1, i);
      ItemIsNew(u, c, due, batch, held, k - 1, i);
      SentHolds(batch[k - 1], held, i);
    }
  }

  lemma SentHolds(p: Pending, held: Option<nat>, i: nat)
    ensures Holds(Sent(p, held), i) <==> i in p.ids
  {}

  // A batch item carries nothing sent before it.
  lemma ItemIsNew(u: Setup, c: Conn, due: set<string>, batch: seq<Pending>, held: Option<nat>, k: nat, i: nat)
    requires Shape(u, c) && Flushes(c.pending, due, batch, held) && k < |batch|
    requires Delivered(c.frames, i) ==> !Waits(c.pending, i)
    ensures i in batch[k].ids ==> !Delivered(c.frames, i) && !InFirst(batch, k, i)
  {
    hide Delivered, Shape, Flushes, Waits;
    if i in batch[k].ids {
      ItemWaits(u, c, due, batch, held, k, i);
      if j :| 0 <= j < k && i in batch[j].ids { ItemsShareNothing(u, c, due, batch, held, j, k, i); }
    }
  }

  lemma ItemWaits(u: Setup, c: Conn, due: set<string>, batch: seq<Pending>, held: Option<nat>, k: nat, i: nat)
    requires Shape(u, c) && Flushes(c.pending, due, batch, held) && k < |batch| && i in batch[k].ids
    ensures Waits(c.pending, i) && !Waits(Without(c.pending, due), i)
  {
    hide Shape, Flushes, PendingValid;
    var s := ItemIsPending(u, c, due, batch, held, k);
    forall r | r in Without(c.pending, due) ensures i !in c.pending[r].ids {
      if i in c.pending[r].ids { SourcesShareNothing(u, c, s, r, i); }
    }
  }

  // Flushed or still waiting.
  lemma WaitingSplits(c: Conn, due: set<string>, batch: seq<Pending>, held: Option<nat>, i: nat)
    requires Flushes(c.pending, due, batch, held)
    ensures Waits(c.pending, i) ==> InFirst(batch, |batch|, i) || Waits(Without(c.pending, due), i)
    ensures Waits(Without(c.pending, due), i) ==> Waits(c.pending, i)
  {
    if s :| s in c.pending && i in c.pending[s].ids {
      if s in due {
        assert c.pending[s] in batch;
        var k :| 0 <= k < |batch| && batch[k] == c.pending[s];
        assert i in batch[k].ids;
      } else {
        assert i in Without(c.pending, due)[s].ids;
      }
    }
    if s :| s in Without(c.pending, due) && i in Without(c.pending, due)[s].ids { assert i in c.pending[s].ids; }
  }

  lemma FlushAccounts(u: Setup, c: Conn, due: set<string>, batch: seq<Pending>, held: Option<nat>, c': Conn, i: nat)
    requires Shape(u, c) && Inv(u, c, i) && Flushes(c.pending, due, batch, held)
    requires c'.cursor == c.cursor && c'.pending == Without(c.pending, due) && c'.frames == c.frames + Frames(batch, held)
    ensures Inv(u, c', i)
  {
    hide Shape, Flushes, Delivered, Resynced, AtMostOnce, Waits, Without;
    assert c'.frames == UpTo(c.frames, batch, held, |batch|);
    UpToDelivers(c.frames, batch, held, |batch|, i);
    UpToOnce(u, c, due, batch, held, |batch|, i);
    WaitingSplits(c, due, batch, held, i);
    if k :| 0 <= k < |batch| && i in batch[k].ids { ItemWaits(u, c, due, batch, held, k, i); }
  }

  lemma FlushShape(u: Setup, c: Conn, due: set<string>, batch: seq<Pending>, held: Option<nat>, c': Conn)
    requires Shape(u, c) && Flushes(c.pending, due, batch, held)
    requires c'.cursor == c.cursor && c'.available == c.available
    requires c'.pending == Without(c.pending, due) && c'.frames == c.frames + Frames(batch, held)
    ensures Shape(u, c')
  {
    ShapeParts(u, c);
    assert c'.frames == UpTo(c.frames, batch, held, |batch|);
    UpToLastId(c.frames, batch, held, |batch|);
    if |batch| > 0 { FlushedIdsGoOn(u, c, due, batch, held, |batch| - 1); }
    FlushedFramesValid(u, c, due, batch, held, c'.frames);
    if held.Some? { HeldIsAhead(u, c, due, batch, held); }
    PendingLeft(u, c, due, batch, held, c');
    hide LastId, FrameValid, PendingValid, Flushes, Frames, Without;
  }

  lemma PendingLeft(u: Setup, c: Conn, due: set<string>, batch: seq<Pending>, held: Option<nat>, c': Conn)
    requires Shape(u, c) && Flushes(c.pending, due, batch, held)
    requires c'.cursor == c.cursor && c'.pending == Without(c.pending, due)
    requires LastId(c'.frames) <= LastId(c.frames) || (held.Some? ==> LastId(c'.frames) < held.value)
    ensures forall s :: s in c'.pending ==> PendingValid(u, c', s, c'.pending[s])
  {
    hide LastId, FrameValid, Batch, MergeIds, Flushes;
    forall s | s in c'.pending ensures PendingValid(u, c', s, c'.pending[s]) {
      assert PendingValid(u, c, s, c.pending[s]);
      HeldBelow(c.pending, due, batch, held, s);
    }
  }

  lemma HeldBelow(pending: map<string, Pending>, due: set<string>, batch: seq<Pending>, held: Option<nat>, s: string)
    requires Flushes(pending, due, batch, held) && s in Without(pending, due)
    ensures held.Some? && held.value <= pending[s].first
  {}

  lemma SentIsValid(u: Setup, c: Conn, due: set<string>, batch: seq<Pending>, held: Option<nat>, j: nat)
    requires Shape(u, c) && Flushes(c.pending, due, batch, held) && j < |batch|
    ensures FrameValid(u, Sent(batch[j], held))
  {
    hide Shape, Flushes, Batch, MergeIds;
    ItemIsAhead(u, c, due, batch, held, j);
  }

  lemma FlushedFramesValid(u: Setup, c: Conn, due: set<string>, batch: seq<Pending>, held: Option<nat>, frames: seq<Frame>)
    requires Shape(u, c) && Flushes(c.pending, due, batch, held) && frames == c.frames + Frames(batch, held)
    ensures FramesValid(u, frames)
  {
    ShapeParts(u, c);
    hide Shape, Flushes, FrameValid, Sent;
    var more := Frames(batch, held);
    forall k | 0 <= k < |more| ensures FrameValid(u, more[k]) { SentIsValid(u, c, due, batch, held, k); }
    FramesValidTogether(u, c.frames, more);
  }

  lemma FramesValidTogether(u: Setup, a: seq<Frame>, b: seq<Frame>)
    requires FramesValid(u, a) && FramesValid(u, b)
    ensures FramesValid(u, a + b)
  {
    hide FrameValid;
  }

  // ------------------------------------------------------------- opening

  // The stream while it replays, up to an event.
  function OpenUpTo(u: Setup, n: nat): seq<Frame>
    requires n <= |u.log|
  {
    (if Complete(u) then [] else [Resync(u.latest)]) + Replay(u, ReplayFrom(u), n)
  }

  ghost predicate OpenedTo(u: Setup, frames: seq<Frame>, n: nat, i: nat) {
    && (Delivered(frames, i) <==> ReplayFrom(u) < i <= n && Wanted(u, i))
    && (Resynced(frames, i) <==> !Complete(u) && i <= u.latest)
    && AtMostOnce(frames, i)
    && FramesValid(u, frames) && LastId(frames) <= n && GoesOn([], frames)
  }

  lemma GoesOnLonger(frames: seq<Frame>, f: Frame)
    requires GoesOn([], frames) && LastId(frames) <= LastId(frames + [f])
    ensures GoesOn([], frames + [f])
  {
    hide LastId;
    var more := frames + [f];
    forall k | 0 <= k < |more| ensures LastId(more[..k]) <= LastId(more[..k + 1]) {
      if k < |frames| {
        assert more[..k] == frames[..k] && more[..k + 1] == frames[..k + 1];
        assert frames[k] == more[k];
      } else {
        assert more[..k] == frames && more[..k + 1] == more;
      }
    }
  }

  lemma OpenedFirst(u: Setup, i: nat)
    requires u.latest <= |u.log|
    ensures OpenedTo(u, OpenUpTo(u, ReplayFrom(u)), ReplayFrom(u), i)
  {
    var frames := OpenUpTo(u, ReplayFrom(u));
    assert Replay(u, ReplayFrom(u), ReplayFrom(u)) == [];
    hide Wanted, ReplayFrom, Replay;
    if Complete(u) {
      assert frames == [];
    } else {
      var f := Resync(u.latest);
      assert frames == [] + [f];
      LastIdAppend([], f);
      AppendHolds([], f, i);
      GoesOnLonger([], f);
      hide Delivered, Resynced, AtMostOnce, GoesOn, OpenUpTo;
      NothingSent(i);
    }
  }

  lemma NothingSent(i: nat)
    ensures !Delivered([], i) && !Resynced([], i) && AtMostOnce([], i)
  {}

  lemma {:induction false} OpenedByReplay(u: Setup, n: nat, i: nat)
    requires ReplayFrom(u) <= n <= u.latest <= |u.log|
    ensures OpenedTo(u, OpenUpTo(u, n), n, i)
    decreases n
  {
    hide OpenedTo, ReplayFrom, Complete, Wanted, Batch;
    if n == ReplayFrom(u) {
      OpenedFirst(u, i);
    } else {
      OpenedByReplay(u, n - 1, i);
      var before := OpenUpTo(u, n - 1);
      if Wanted(u, n) {
        NowIsInLog(u, n);
        assert OpenUpTo(u, n) == before + [Update(n, u.log[n - 1], [n])];
        OpenedNext(u, before, n, i);
      } else {
        assert OpenUpTo(u, n) == before;
        OpenedSkips(u, before, n, i);
      }
    }
  }

  lemma OpenedSkips(u: Setup, before: seq<Frame>, n: nat, i: nat)
    requires n > 0 && OpenedTo(u, before, n - 1, i) && !Wanted(u, n)
    ensures OpenedTo(u, before, n, i)
  {
    hide Delivered, Resynced, AtMostOnce, LastId, GoesOn, FramesValid, Wanted, ReplayFrom, Complete;
  }

  lemma OpenedNext(u: Setup, before: seq<Frame>, n: nat, i: nat)
    requires n > ReplayFrom(u) && OpenedTo(u, before, n - 1, i) && Wanted(u, n)
    ensures OpenedTo(u, before + [Update(n, u.log[n - 1], [n])], n, i)
  {
    var f := Update(n, u.log[n - 1], [n]);
    SingleBatch(u, n);
    LastIdAppend(before, f);
    AppendHolds(before, f, i);
    FramesValidAppend(u, before, f);
    GoesOnLonger(before, f);
    hide Delivered, Resynced, AtMostOnce, LastId, GoesOn, Batch, FramesValid, Wanted, ReplayFrom, Complete;
  }

  lemma ReplayFromIsBefore(u: Setup)
    ensures ReplayFrom(u) <= u.latest && Base(u) <= u.latest
    ensures Complete(u) ==> Base(u) == ReplayFrom(u)
  {}

  // A client cut off anywhere in the replay resumes safely.
  lemma ReplayIsSafe(u: Setup, n: nat)
    requires ReplayFrom(u) <= n <= u.latest <= |u.log|
    ensures SafeToResume(u, OpenUpTo(u, n))
  {
    hide Delivered, Resynced, AtMostOnce, OpenUpTo, FramesValid, GoesOn;
    ReplayFromIsBefore(u);
    forall i: nat | Base(u) < i <= LastId(OpenUpTo(u, n)) && Wanted(u, i)
      ensures Delivered(OpenUpTo(u, n), i) || Resynced(OpenUpTo(u, n), i)
    {
      OpenedByReplay(u, n, i);
    }
  }

  lemma StartIsValid(u: Setup, c: Conn, i: nat)
    requires Start(u, c)
    ensures Shape(u, c) && Inv(u, c, i) && GoesOn([], c.frames)
  {
    ReplayFromIsBefore(u);
    OpenedByReplay(u, u.latest, i);
    var before, f := OpenUpTo(u, u.latest), Ready(u.latest);
    assert c.frames == before + [f];
    LastIdAppend(before, f);
    AppendHolds(before, f, i);
    FramesValidAppend(u, before, f);
    GoesOnLonger(before, f);
    hide Delivered, Resynced, AtMostOnce, OpenUpTo, LastId, GoesOn, Batch, Opening, FrameValid;
  }

  lemma ReplayNext(u: Setup, from: nat, n: nat)
    requires from < n <= |u.log|
    ensures Replay(u, from, n) == Replay(u, from, n - 1) + (if Wanted(u, n) then [Update(n, u.log[n - 1], [n])] else [])
  {}

  lemma ReplayNone(u: Setup)
    requires u.latest <= |u.log|
    ensures Replay(u, ReplayFrom(u), ReplayFrom(u)) == [] && ReplayFrom(u) <= u.latest
  {}

  // What a subscription answers, as the connection needs it.
  lemma SubscriptionGives(u: Setup, recent: seq<Sequenced>, s: Subscription)
    requires u.latest == |u.log| && recent == Numbered(u.log, |u.log| - Retained(|u.log|), |u.log|)
    requires u.since.None? ==> s.complete && s.replay == []
    requires u.since.Some? ==> (s.complete <==>
      u.since.value <= |u.log| && !exists id {:trigger Dropped(u.log, id)} :: u.since.value < id && Dropped(u.log, id))
    requires u.since.Some? && s.complete ==> s.replay == Numbered(u.log, u.since.value, |u.log|)
    requires u.since.Some? && !s.complete ==> s.replay == if u.since.value > |u.log| then [] else recent
    ensures s.complete == Complete(u) && s.replay == Numbered(u.log, ReplayFrom(u), u.latest)
  {
    var kept := |u.log| - Retained(|u.log|);
    if u.since.Some? && u.since.value < kept { assert Dropped(u.log, kept); }
  }

  // The stream up to its live part: a resync when events are gone, the missed
  // events the viewport wants, and the end of the replay.
  method OpenStream(bus: Bus, wants: TileEvent -> bool, ghost cooldown: bool, since: Option<nat>) returns (frames: seq<Frame>)
    requires bus.Valid()
    ensures frames == Opening(Setup(bus.log, wants, cooldown, since, |bus.log|))
  {
    ghost var u := Setup(bus.log, wants, cooldown, since, |bus.log|);
    var s := bus.SubscribeSince(since);
    SubscriptionGives(u, bus.recent, s);
    ReplayNone(u);
    hide Replay, ReplayFrom, Complete;
    frames := [];
    if !s.complete { frames := frames + [Resync(s.latestId)]; }
    ghost var before, from := frames, ReplayFrom(u);
    var i := 0;
    while i < |s.replay|
      invariant 0 <= i <= |s.replay|
      invariant frames == before + Replay(u, from, from + i)
    {
      ReplayNext(u, from, from + i + 1);
      var missed := s.replay[i];
      if wants(missed.event) {
        frames := frames + [Update(missed.id, missed.event, [missed.id])];
      }
      i := i + 1;
    }
    frames := frames + [Ready(s.latestId)];
  }

  // ------------------------------------------------------------- whole connections

  lemma ReceiveKeeps(u: Setup, c: Conn, c': Conn, i: nat)
    requires Shape(u, c) && Inv(u, c, i) && Next(u, c, Receive, c') && (!u.cooldown ==> c.pending == map[])
    ensures Shape(u, c') && Inv(u, c', i) && GoesOn(c.frames, c'.frames) && (!u.cooldown ==> c'.pending == map[])
  {
    hide Shape, Inv, GoesOn, Wanted, Accumulated;
    if !Wanted(u, c.cursor + 1) { SkipKeeps(u, c, c', i); }
    else if !u.cooldown { ForwardKeeps(u, c, c', i); }
    else { AccumulateKeeps(u, c, c', i); }
  }

  lemma FlushKeeps(u: Setup, c: Conn, due: set<string>, batch: seq<Pending>, held: Option<nat>, c': Conn, i: nat)
    requires Shape(u, c) && Inv(u, c, i) && Flushes(c.pending, due, batch, held)
    requires c'.cursor == c.cursor && c'.available == c.available
    requires c'.pending == Without(c.pending, due) && c'.frames == c.frames + Frames(batch, held)
    ensures Shape(u, c') && Inv(u, c', i) && GoesOn(c.frames, c'.frames)
  {
    hide Shape, Inv, GoesOn, Flushes, Frames, Without;
    FlushShape(u, c, due, batch, held, c');
    FlushAccounts(u, c, due, batch, held, c', i);
    FlushGoesOn(u, c, due, batch, held);
  }

  lemma StepKeeps(u: Setup, c: Conn, step: Step, c': Conn, i: nat)
    requires Shape(u, c) && Inv(u, c, i) && Next(u, c, step, c') && (!u.cooldown ==> c.pending == map[])
    ensures Shape(u, c') && Inv(u, c', i) && GoesOn(c.frames, c'.frames) && (!u.cooldown ==> c'.pending == map[])
  {
    hide Shape, Inv, GoesOn, Flushes, Frames, Wanted, Accumulated;
    match step
    case Send => SendKeeps(u, c, c', i);
    case Receive => ReceiveKeeps(u, c, c', i);
    case Lag => LagKeeps(u, c, c', i);
    case Flush(due, batch, held) => FlushKeeps(u, c, due, batch, held, c', i);
    case Close(batch) =>
      assert c'.pending == Without(c.pending, c.pending.Keys);
      FlushKeeps(u, c, c.pending.Keys, batch, None, c', i);
  }

  ghost predicate Run(u: Setup, conns: seq<Conn>, steps: seq<Step>) {
    && |conns| == |steps| + 1 && Start(u, conns[0])
    && forall k :: 0 <= k < |steps| ==> Next(u, conns[k], steps[k], conns[k + 1])
  }

  lemma GoesOnTransitive(a: seq<Frame>, b: seq<Frame>)
    requires GoesOn([], a) && GoesOn(a, b)
    ensures GoesOn([], b)
  {
    hide LastId;
    forall k | 0 <= k < |b| ensures LastId(b[..k]) <= LastId(b[..k + 1]) {
      if k < |a| {
        assert b[..k] == a[..k] && b[..k + 1] == a[..k + 1];
        assert a[k] == b[k];
      } else {
        assert b[k] == b[k];
      }
    }
  }

  lemma {:induction false} RunKeeps(u: Setup, conns: seq<Conn>, steps: seq<Step>, n: nat, i: nat)
    requires Run(u, conns, steps) && n < |conns|
    ensures Shape(u, conns[n]) && Inv(u, conns[n], i) && GoesOn([], conns[n].frames)
    ensures !u.cooldown ==> conns[n].pending == map[]
  {
    if n == 0 {
      StartIsValid(u, conns[0], i);
    } else {
      hide Shape, Inv, GoesOn, Next, Start;
      RunKeeps(u, conns, steps, n - 1, i);
      assert Next(u, conns[n - 1], steps[n - 1], conns[n - 1 + 1]);
      StepKeeps(u, conns[n - 1], steps[n - 1], conns[n], i);
      GoesOnTransitive(conns[n - 1].frames, conns[n].frames);
    }
  }

  lemma PendingIsAhead(u: Setup, c: Conn, i: nat)
    requires Shape(u, c) && Waits(c.pending, i)
    ensures LastId(c.frames) < i
  {
    hide Batch, MergeIds, FrameValid, LastId;
    var s :| s in c.pending && i in c.pending[s].ids;
    assert PendingValid(u, c, s, c.pending[s]);
    BatchNotEmpty(u, s, c.pending[s].ids);
  }

  // Between steps of any connection: resuming from the last id sent misses no
  // wanted event, and the ids sent never went back.
  lemma ResumeIsSafe(u: Setup, conns: seq<Conn>, steps: seq<Step>, n: nat)
    requires Run(u, conns, steps) && n < |conns|
    ensures SafeToResume(u, conns[n].frames)
    ensures forall j, k :: 0 <= j <= k <= |conns[n].frames| ==> LastId(conns[n].frames[..j]) <= LastId(conns[n].frames[..k])
  {
    hide Run, Shape, Delivered, Resynced, Waits, GoesOn, LastId;
    var c := conns[n];
    RunKeeps(u, conns, steps, n, 0);
    ShapeParts(u, c);
    forall i: nat | Base(u) < i <= LastId(c.frames) && Wanted(u, i)
      ensures Delivered(c.frames, i) || Resynced(c.frames, i)
    {
      RunKeeps(u, conns, steps, n, i);
      if Waits(c.pending, i) { PendingIsAhead(u, c, i); }
    }
    forall j, k | 0 <= j <= k <= |c.frames| ensures LastId(c.frames[..j]) <= LastId(c.frames[..k]) { IdsGoUp(c.frames, j, k); }
  }

  lemma {:induction false} IdsGoUp(frames: seq<Frame>, j: nat, k: nat)
    requires GoesOn([], frames) && j <= k <= |frames|
    ensures LastId(frames[..j]) <= LastId(frames[..k])
  {
    hide LastId;
    if j < k {
      IdsGoUp(frames, j, k - 1);
      assert frames[k - 1] == frames[k - 1] && LastId(frames[..k - 1]) <= LastId(frames[..k - 1 + 1]);
    }
  }

  // No event is sent twice; what is sent is the merge of exactly the wanted events
  // of one source it stands for, each of which it tells everything of.
  lemma SentExactlyOnce(u: Setup, conns: seq<Conn>, steps: seq<Step>, n: nat, k: nat, i: nat)
    requires Run(u, conns, steps) && n < |conns| && k < |conns[n].frames| && Holds(conns[n].frames[k], i)
    ensures 1 <= i <= |u.log| && u.wants(u.log[i - 1]) && Includes(conns[n].frames[k].event, u.log[i - 1])
    ensures forall j :: 0 <= j < |conns[n].frames| && j != k ==> !Holds(conns[n].frames[j], i)
  {
    hide Run, Accounted, Waits, Delivered, Includes, MergeIds, LastId, GoesOn;
    RunKeeps(u, conns, steps, n, i);
    var f := conns[n].frames[k];
    assert FrameValid(u, f);
    BatchHolds(u, f.event.source, f.ids, i);
    MergedIncludes(u, f.event.source, f.ids, i);
  }

  // When the stream ends everything the client wants of what it had not has been sent.
  lemma ClosedIsComplete(u: Setup, conns: seq<Conn>, steps: seq<Step>, n: nat, i: nat)
    requires Run(u, conns, steps) && 0 < n < |conns| && steps[n - 1].Close?
    requires (if u.since.None? then u.latest else if u.since.value <= u.latest <= u.since.value + 256 then u.since.value else 0) < i
    requires 1 <= i <= conns[n].available && i <= |u.log| && u.wants(u.log[i - 1])
    ensures Delivered(conns[n].frames, i) || Resynced(conns[n].frames, i)
  {
    assert Base(u) < i && Wanted(u, i);
    hide Start, Wanted, Delivered, Resynced, Flushes, Frames, Shape, GoesOn, Once;
    RunKeeps(u, conns, steps, n, i);
    assert Next(u, conns[n - 1], steps[n - 1], conns[n - 1 + 1]);
    assert conns[n].pending == map[];
  }

  ghost predicate NoReload(frames: seq<Frame>) {
    forall k :: 0 <= k < |frames| ==> !frames[k].Resync?
  }

  lemma {:induction false} ReplayHasNoReload(u: Setup, from: nat, upto: nat)
    requires upto <= |u.log|
    ensures NoReload(Replay(u, from, upto))
  {
    if upto > from { ReplayHasNoReload(u, from, upto - 1); }
  }

  // A client whose replay is complete is asked to reload only by lagging, and one whose
  // replay is not is asked at once.
  lemma {:induction false} ReloadOnlyWhenLost(u: Setup, conns: seq<Conn>, steps: seq<Step>, n: nat)
    requires Run(u, conns, steps) && n < |conns|
    ensures NoReload(conns[n].frames) <==>
      (u.since.None? || u.since.value <= u.latest <= u.since.value + 256) && forall k :: 0 <= k < n ==> !steps[k].Lag?
  {
    if n == 0 {
      ReplayHasNoReload(u, ReplayFrom(u), u.latest);
      if !Complete(u) { assert conns[0].frames[0].Resync?; }
    } else {
      ReloadOnlyWhenLost(u, conns, steps, n - 1);
      assert Next(u, conns[n - 1], steps[n - 1], conns[n - 1 + 1]);
      ReloadStep(u, conns[n - 1], steps[n - 1], conns[n]);
    }
  }

  lemma ReloadStep(u: Setup, c: Conn, step: Step, c': Conn)
    requires Next(u, c, step, c')
    ensures NoReload(c'.frames) <==> NoReload(c.frames) && !step.Lag?
  {
    hide Wanted, Flushes, Accumulated, Without, Sent;
    assert c.frames <= c'.frames;
    if !NoReload(c.frames) {
      var k :| 0 <= k < |c.frames| && c.frames[k].Resync?;
      assert c'.frames[k].Resync?;
    }
    match step
    case Send =>
    case Receive =>
    case Lag => assert c'.frames[|c.frames|].Resync?;
    case Flush(due, batch, held) => FlushedAreUpdates(batch, held);
    case Close(batch) => FlushedAreUpdates(batch, None);
  }

  lemma FlushedAreUpdates(batch: seq<Pending>, held: Option<nat>)
    ensures NoReload(Frames(batch, held))
  {}

  // ------------------------------------------------------------- within a batch

  // Cut off after k frames of a batch, resuming is safe exactly when every event
  // of the frames not yet sent comes after the last id sent, or was resynced.
  lemma BatchPrefixIsSafe(u: Setup, conns: seq<Conn>, steps: seq<Step>, n: nat, due: set<string>, batch: seq<Pending>,
                          held: Option<nat>, k: nat)
    requires Run(u, conns, steps) && n < |conns| && Flushes(conns[n].pending, due, batch, held) && k <= |batch|
    ensures var sent := UpTo(conns[n].frames, batch, held, k);
      SafeToResume(u, sent) <==>
        forall j, i :: k <= j < |batch| && i in batch[j].ids ==> i > LastId(sent) || Resynced(conns[n].frames, i)
  {
    hide *;
    var c := conns[n];
    var sent := UpTo(c.frames, batch, held, k);
    RunKeeps(u, conns, steps, n, 0);
    if SafeToResume(u, sent) {
      forall j, i | k <= j < |batch| && i in batch[j].ids
        ensures i > LastId(sent) || Resynced(c.frames, i)
      {
        RunKeeps(u, conns, steps, n, i);
        UnsentIsResynced(u, c, due, batch, held, k, j, i);
      }
    }
    if forall j, i :: k <= j < |batch| && i in batch[j].ids ==> i > LastId(sent) || Resynced(c.frames, i) {
      PrefixAccounts(u, conns, steps, n, due, batch, held, k);
    }
  }

  // No reload was asked for since the batch's events began to wait.
  ghost predicate NotReloadedSince(frames: seq<Frame>, batch: seq<Pending>) {
    forall j, m :: 0 <= j < |batch| && 0 <= m < |frames| && frames[m].Resync? ==> frames[m].upTo < batch[j].first
  }

  // What the flush could see beforehand: such a cut is safe exactly when the id of the
  // last event sent stays below the first event of each one unsent.
  lemma CutIsSafe(u: Setup, conns: seq<Conn>, steps: seq<Step>, n: nat, due: set<string>, batch: seq<Pending>, held: Option<nat>, k: nat)
    requires Run(u, conns, steps) && n < |conns| && Flushes(conns[n].pending, due, batch, held) && 0 < k <= |batch|
    requires NotReloadedSince(conns[n].frames, batch)
    ensures SafeToResume(u, UpTo(conns[n].frames, batch, held, k)) <==>
      forall j :: k <= j < |batch| ==> HeldId(batch[k - 1].last, held) < batch[j].first
  {
    hide Run, Flushes, SafeToResume, UpTo, LastId, HeldId, Batch, MergeIds, Resynced, Shape;
    var c := conns[n];
    RunKeeps(u, conns, steps, n, 0);
    BatchPrefixIsSafe(u, conns, steps, n, due, batch, held, k);
    UpToLastId(c.frames, batch, held, k);
    forall j | k <= j < |batch|
      ensures batch[j].first in batch[j].ids
      ensures forall i :: i in batch[j].ids ==> batch[j].first <= i && !Resynced(c.frames, i)
    {
      ItemIsAhead(u, c, due, batch, held, j);
      forall i | i in batch[j].ids ensures !Resynced(c.frames, i) { NotResynced(c.frames, batch, j, i); }
    }
  }

  lemma NotResynced(frames: seq<Frame>, batch: seq<Pending>, j: nat, i: nat)
    requires NotReloadedSince(frames, batch) && j < |batch| && batch[j].first <= i
    ensures !Resynced(frames, i)
  {}

  // So every cut of a batch is safe exactly when each event's id stays below the first
  // event of the next one.
  lemma BatchIsSafe(u: Setup, conns: seq<Conn>, steps: seq<Step>, n: nat, due: set<string>, batch: seq<Pending>, held: Option<nat>)
    requires Run(u, conns, steps) && n < |conns| && Flushes(conns[n].pending, due, batch, held)
    requires NotReloadedSince(conns[n].frames, batch)
    ensures (forall k :: 0 <= k <= |batch| ==> SafeToResume(u, UpTo(conns[n].frames, batch, held, k))) <==>
      forall j :: 0 < j < |batch| ==> HeldId(batch[j - 1].last, held) < batch[j].first
  {
    hide Run, SafeToResume, NotReloadedSince, Shape, LastId;
    var frames := conns[n].frames;
    if forall k :: 0 <= k <= |batch| ==> SafeToResume(u, UpTo(frames, batch, held, k)) {
      forall j | 0 < j < |batch| ensures HeldId(batch[j - 1].last, held) < batch[j].first {
        CutIsSafe(u, conns, steps, n, due, batch, held, j);
        assert SafeToResume(u, UpTo(frames, batch, held, j));
      }
    }
    if forall j :: 0 < j < |batch| ==> HeldId(batch[j - 1].last, held) < batch[j].first {
      forall k | 0 <= k <= |batch| ensures SafeToResume(u, UpTo(frames, batch, held, k)) {
        if k == 0 {
          assert UpTo(frames, batch, held, 0) == frames;
          ResumeIsSafe(u, conns, steps, n);
        } else {
          CutIsSafe(u, conns, steps, n, due, batch, held, k);
          forall j | k <= j < |batch| ensures HeldId(batch[k - 1].last, held) < batch[j].first {
            HeldIdMonotone(batch, held, k - 1, j - 1);
          }
        }
      }
    }
  }

  lemma HeldIdMonotone(batch: seq<Pending>, held: Option<nat>, j: nat, k: nat)
    requires j <= k < |batch| && forall a, b :: 0 <= a < b < |batch| ==> batch[a].last < batch[b].last
    ensures HeldId(batch[j].last, held) <= HeldId(batch[k].last, held)
  {}

  lemma UnsentIsResynced(u: Setup, c: Conn, due: set<string>, batch: seq<Pending>, held: Option<nat>, k: nat, j: nat, i: nat)
    requires Shape(u, c) && Inv(u, c, i) && Flushes(c.pending, due, batch, held) && k <= j < |batch| && i in batch[j].ids
    requires SafeToResume(u, UpTo(c.frames, batch, held, k))
    ensures i > LastId(UpTo(c.frames, batch, held, k)) || Resynced(c.frames, i)
  {
    hide Shape, Flushes, Delivered, Resynced, UpTo, LastId, AtMostOnce, Waits;
    ItemIsAhead(u, c, due, batch, held, j);
    ItemIsWanted(u, c, due, batch, held, j, i);
    ItemWaits(u, c, due, batch, held, j, i);
    UpToDelivers(c.frames, batch, held, k, i);
    if m :| 0 <= m < k && i in batch[m].ids { ItemsShareNothing(u, c, due, batch, held, m, j, i); }
  }

  lemma ItemIsWanted(u: Setup, c: Conn, due: set<string>, batch: seq<Pending>, held: Option<nat>, k: nat, i: nat)
    requires Shape(u, c) && Flushes(c.pending, due, batch, held) && k < |batch| && i in batch[k].ids
    ensures Wanted(u, i)
  {
    hide Shape, Flushes, MergeIds;
    var s := ItemIsPending(u, c, due, batch, held, k);
    BatchHolds(u, s, batch[k].ids, i);
  }

  lemma PrefixAccounts(u: Setup, conns: seq<Conn>, steps: seq<Step>, n: nat, due: set<string>, batch: seq<Pending>,
                       held: Option<nat>, k: nat)
    requires Run(u, conns, steps) && n < |conns| && Flushes(conns[n].pending, due, batch, held) && k <= |batch|
    requires forall j, i :: k <= j < |batch| && i in batch[j].ids ==>
      i > LastId(UpTo(conns[n].frames, batch, held, k)) || Resynced(conns[n].frames, i)
    ensures SafeToResume(u, UpTo(conns[n].frames, batch, held, k))
  {
    hide Run, Flushes, Delivered, Resynced, UpTo, LastId, Inv, Shape;
    var c := conns[n];
    var sent := UpTo(c.frames, batch, held, k);
    forall i: nat | Base(u) < i <= LastId(sent) && Wanted(u, i)
      ensures Delivered(sent, i) || Resynced(sent, i)
    {
      RunKeeps(u, conns, steps, n, i);
      PrefixAccountsFor(u, c, due, batch, held, k, i);
    }
  }

  lemma PrefixAccountsFor(u: Setup, c: Conn, due: set<string>, batch: seq<Pending>, held: Option<nat>, k: nat, i: nat)
    requires Shape(u, c) && Inv(u, c, i) && Flushes(c.pending, due, batch, held) && k <= |batch|
    requires forall j :: k <= j < |batch| && i in batch[j].ids ==> i > LastId(UpTo(c.frames, batch, held, k)) || Resynced(c.frames, i)
    requires Base(u) < i <= LastId(UpTo(c.frames, batch, held, k)) && Wanted(u, i)
    ensures Delivered(UpTo(c.frames, batch, held, k), i) || Resynced(UpTo(c.frames, batch, held, k), i)
  {
    hide Flushes, Delivered, Resynced, UpTo, LastId, Waits, AtMostOnce, PendingValid, FrameValid, Without;
    UpToDelivers(c.frames, batch, held, k, i);
    PrefixIdBound(u, c, due, batch, held, k);
    WaitingSplits(c, due, batch, held, i);
    if Waits(Without(c.pending, due), i) { WaitingIsHeld(u, c, due, batch, held, k, i); }
  }

  lemma PrefixIdBound(u: Setup, c: Conn, due: set<string>, batch: seq<Pending>, held: Option<nat>, k: nat)
    requires Shape(u, c) && Flushes(c.pending, due, batch, held) && k <= |batch|
    ensures LastId(UpTo(c.frames, batch, held, k)) <= c.cursor
    ensures held.Some? ==> LastId(UpTo(c.frames, batch, held, k)) < held.value
  {
    ShapeParts(u, c);
    UpToLastId(c.frames, batch, held, k);
    if held.Some? { HeldIsAhead(u, c, due, batch, held); }
    if k > 0 { ItemIsAhead(u, c, due, batch, held, k - 1); }
    hide Shape, UpTo, LastId, Flushes;
  }

  lemma WaitingIsHeld(u: Setup, c: Conn, due: set<string>, batch: seq<Pending>, held: Option<nat>, k: nat, i: nat)
    requires Shape(u, c) && Flushes(c.pending, due, batch, held) && Waits(Without(c.pending, due), i)
    ensures held.Some? && held.value <= i
  {
    hide Batch, MergeIds, FrameValid, LastId;
    var s :| s in Without(c.pending, due) && i in Without(c.pending, due)[s].ids;
    assert PendingValid(u, c, s, c.pending[s]);
    BatchNotEmpty(u, s, c.pending[s].ids);
    HeldBelow(c.pending, due, batch, held, s);
  }

  // A client that comes back with the last id it got, however it was cut off
  // between batches, has everything wanted up to the last id it gets then.
  lemma ReconnectLosesNothing(u: Setup, conns: seq<Conn>, steps: seq<Step>, n: nat,
                              again: Setup, conns': seq<Conn>, steps': seq<Step>, m: nat, i: nat)
    requires Run(u, conns, steps) && n < |conns| && Run(again, conns', steps') && m < |conns'|
    requires again.log == u.log && again.wants == u.wants && again.since == Some(LastId(conns[n].frames))
    requires (if u.since.None? then u.latest else if u.since.value <= u.latest <= u.since.value + 256 then u.since.value else 0) < i
    requires 1 <= i <= LastId(conns'[m].frames) && i <= |u.log| && u.wants(u.log[i - 1])
    ensures Delivered(conns[n].frames, i) || Resynced(conns[n].frames, i)
      || Delivered(conns'[m].frames, i) || Resynced(conns'[m].frames, i)
  {
    assert Base(u) < i && Wanted(u, i);
    ResumeIsSafe(u, conns, steps, n);
    ResumeIsSafe(again, conns', steps', m);
    assert Wanted(again, i);
    assert Base(again) <= again.since.value;
    hide Run, Delivered, Resynced, LastId, Base;
  }

  // The condition within a batch can fail: one source's events enclose another's,
  // and the enclosed one is sent first under an id past the other's first event.
  lemma MidBatchGap() returns (u: Setup, conns: seq<Conn>, steps: seq<Step>, batch: seq<Pending>)
    ensures Run(u, conns, steps) && |conns| == 7
    ensures Flushes(conns[6].pending, {"a", "b"}, batch, None) && |batch| == 2
    ensures !SafeToResume(u, UpTo(conns[6].frames, batch, None, 1))
  {
    var a, b := GenerateComplete("a", 1), GenerateComplete("b", 1);
    u := Setup([a, b, a], _ => true, true, None, 0);
    var started := [Ready(0)];
    var p1, p2, p3 := Pending(a, 1, 1, [1]), Pending(b, 2, 2, [2]), Pending(a, 1, 3, [1, 3]);
    batch := [p2, p3];
    steps := [Send, Send, Send, Receive, Receive, Receive];
    conns := [Conn(0, 0, map[], started, true), Conn(1, 0, map[], started, true), Conn(2, 0, map[], started, true),
      Conn(3, 0, map[], started, true), Conn(3, 1, map["a" := p1], started, true),
      Conn(3, 2, map["a" := p1, "b" := p2], started, true), Conn(3, 3, map["a" := p3, "b" := p2], started, true)];
    assert Opening(u) == started;
    GapIsReceived(u, a, b, conns);
    forall k | 0 <= k < 3 ensures Next(u, conns[k], Send, conns[k + 1]) {}
    GapIsFlushed(p3, p2);
    hide Next, Flushes;
    forall k | 0 <= k < 6 ensures Next(u, conns[k], steps[k], conns[k + 1]) {
      if k == 3 {} else if k == 4 {} else if k == 5 {}
    }
    UpToLastId(started, batch, None, 1);
    UpToDelivers(started, batch, None, 1, 1);
    assert Wanted(u, 1) && HeldId(2, None) == 2;
  }

  lemma GapIsReceived(u: Setup, a: TileEvent, b: TileEvent, conns: seq<Conn>)
    requires u.log == [a, b, a] && (forall e :: u.wants(e)) && u.cooldown && |conns| == 7
    requires a == GenerateComplete("a", 1) && b == GenerateComplete("b", 1)
    requires forall k :: 3 <= k < 7 ==> conns[k].open && conns[k].available == 3 && conns[k].cursor == k - 3 && conns[k].frames == conns[3].frames
    requires conns[3].pending == map[] && conns[4].pending == map["a" := Pending(a, 1, 1, [1])]
    requires conns[5].pending == map["a" := Pending(a, 1, 1, [1]), "b" := Pending(b, 2, 2, [2])]
    requires conns[6].pending == map["a" := Pending(a, 1, 3, [1, 3]), "b" := Pending(b, 2, 2, [2])]
    ensures Next(u, conns[3], Receive, conns[4]) && Next(u, conns[4], Receive, conns[5]) && Next(u, conns[5], Receive, conns[6])
  {
    hide Flushes, Frames, Without, Compact;
    assert [1] + [3] == [1, 3];
  }

  lemma GapIsFlushed(p: Pending, q: Pending)
    requires q.last < p.last
    ensures Flushes(map["a" := p, "b" := q], {"a", "b"}, [q, p], None)
  {
    var pending := map["a" := p, "b" := q];
    assert pending["a"] == p && pending["b"] == q;
    assert Without(pending, {"a", "b"}) == map[];
  }

  // ------------------------------------------------------------- flush_pending

  predicate EarlierLast(p: Pending, q: Pending) { p.last < q.last }

  // `flush_pending`: takes the due events out of the map, sorts them and holds
  // their ids below whatever still waits.
  method FlushPending(pending: map<string, Pending>, due: set<string>)
    returns (rest: map<string, Pending>, out: seq<Frame>, ghost batch: seq<Pending>, ghost held: Option<nat>)
    requires forall s, r :: s in pending && r in pending && s != r ==> pending[s].last != pending[r].last
    ensures rest == Without(pending, due)
    ensures Flushes(pending, due, batch, held) && out == Frames(batch, held)
  {
    hide IsWaiting;
    var flushed;
    rest, flushed := TakeDue(pending, due);
    SortStrict(EarlierLast, flushed);
    var sorted := Sort(EarlierLast, flushed);
    batch := sorted;
    forall p ensures p in sorted <==> p in flushed { SortHolds(EarlierLast, flushed, p); }
    forall j, k | 0 <= j < k < |sorted| ensures sorted[j].last < sorted[k].last { StrictPairs(EarlierLast, sorted, j, k); }
    var first := LeastFirst(rest);
    held := first;
    out := [];
    var k := 0;
    while k < |sorted|
      invariant 0 <= k <= |sorted|
      invariant out == Frames(batch, held)[..k]
    {
      FramesNext(batch, held, k);
      out := out + [Sent(sorted[k], first)];
      k := k + 1;
    }
  }

  lemma FramesNext(batch: seq<Pending>, held: Option<nat>, k: nat)
    requires k < |batch|
    ensures Frames(batch, held)[..k + 1] == Frames(batch, held)[..k] + [Sent(batch[k], held)]
  {}

  // The loop so far: `todo` is still to be taken, `taken` the sources of `flushed`.
  ghost predicate Taken(pending: map<string, Pending>, due: set<string>, todo: set<string>, rest: map<string, Pending>,
                        flushed: seq<Pending>, taken: seq<string>) {
    && rest == Without(pending, due - todo)
    && |taken| == |flushed| && (forall s :: s in taken <==> s in due && s in pending && s !in todo)
    && (forall k :: 0 <= k < |taken| ==> taken[k] in pending && flushed[k] == pending[taken[k]])
    && (forall j, k :: 0 <= j < k < |taken| ==> taken[j] != taken[k])
  }

  lemma NoneTaken(pending: map<string, Pending>, due: set<string>)
    ensures Taken(pending, due, due * pending.Keys, pending, [], [])
  {}

  lemma TakeOne(pending: map<string, Pending>, due: set<string>, todo: set<string>, rest: map<string, Pending>,
                flushed: seq<Pending>, taken: seq<string>, s: string)
    requires Taken(pending, due, todo, rest, flushed, taken) && s in todo && todo <= due * pending.Keys
    ensures Taken(pending, due, todo - {s}, rest - {s}, flushed + [pending[s]], taken + [s])
  {
    assert s !in taken;
    assert rest - {s} == Without(pending, due - (todo - {s}));
  }

  lemma AllTaken(pending: map<string, Pending>, due: set<string>, rest: map<string, Pending>, flushed: seq<Pending>, taken: seq<string>)
    requires Taken(pending, due, {}, rest, flushed, taken)
    requires forall s, r :: s in pending && r in pending && s != r ==> pending[s].last != pending[r].last
    ensures rest == Without(pending, due)
    ensures forall p :: p in flushed <==> exists s :: s in due && s in pending && pending[s] == p
    ensures forall j, k :: 0 <= j < k < |flushed| ==> flushed[j].last != flushed[k].last
  {
    assert due - {} == due;
    hide Without;
    forall p ensures p in flushed <==> exists s :: s in due && s in pending && pending[s] == p {
      if s :| s in due && s in pending && pending[s] == p {
        var k :| 0 <= k < |taken| && taken[k] == s;
        assert flushed[k] == p;
      }
    }
  }

  method TakeDue(pending: map<string, Pending>, due: set<string>) returns (rest: map<string, Pending>, flushed: seq<Pending>)
    requires forall s, r :: s in pending && r in pending && s != r ==> pending[s].last != pending[r].last
    ensures rest == Without(pending, due)
    ensures forall p :: p in flushed <==> exists s :: s in due && s in pending && pending[s] == p
    ensures forall j, k :: 0 <= j < k < |flushed| ==> flushed[j].last != flushed[k].last
  {
    hide Taken;
    var todo := due * pending.Keys;
    rest, flushed := pending, [];
    ghost var taken: seq<string> := [];
    NoneTaken(pending, due);
    while todo != {}
      invariant todo <= due * pending.Keys && todo <= rest.Keys
      invariant Taken(pending, due, todo, rest, flushed, taken)
      decreases |todo|
    {
      var s :| s in todo;
      TakeOne(pending, due, todo, rest, flushed, taken, s);
      flushed := flushed + [pending[s]];
      taken := taken + [s];
      rest := rest - {s};
      todo := todo - {s};
    }
    AllTaken(pending, due, rest, flushed, taken);
  }

  method LeastFirst(rest: map<string, Pending>) returns (held: Option<nat>)
    ensures IsWaiting(rest, held)
  {
    held := None;
    var todo := rest.Keys;
    while todo != {}
      invariant todo <= rest.Keys
      invariant held.None? <==> todo == rest.Keys
      invariant held.Some? ==> exists s :: s in rest && rest[s].first == held.value
      invariant held.Some? ==> forall s :: s in rest && s !in todo ==> held.value <= rest[s].first
      decreases |todo|
    {
      var s :| s in todo;
      var first := rest[s].first;
      if held.None? || first < held.value { held := Some(first); }
      todo := todo - {s};
    }
    if held.None? { assert rest.Keys == {}; }
  }
}
