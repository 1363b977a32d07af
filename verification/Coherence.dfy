// Readers, the updater and the watcher around one cache: src/server.rs (miss, read,
// insert; clearing on external writes), src/updater.rs (commit, then invalidate).
// Every step is atomic where the original holds a lock; anything may happen in
// between.

module Coherence {
  import opened CacheView

  // What the store holds; a tile it does not hold is served as empty.
  type Store = map<Key, CachedTile>

  function Stored(store: Store, key: Key): CachedTile {
    if key in store then store[key] else Empty
  }

  // A request after its cache miss: before and after it read the store.
  datatype Reader =
    | Missed(key: Key, generation: nat)
    | HasRead(key: Key, generation: nat, tile: CachedTile)

  // A commit whose invalidation is still to come.
  datatype Commit = Commit(source: string, keys: set<Key>)

  datatype State = State(
    store: Store,
    cache: View,
    readers: map<nat, Reader>,
    commits: map<nat, Commit>,
    version: map<string, nat>,   // `data_version`: moved by other connections only
    last: map<string, nat>,      // the watcher's baseline
    seen: map<string, nat>,      // a version read, not yet compared
    missed: set<string>)         // written by others while not watched, not cleared since

  function Version(s: State, source: string): nat {
    if source in s.version then s.version[source] else 0
  }

  // The watcher has a version to compare the next one with, or is about to have one.
  predicate Watched(s: State, source: string) {
    source in s.last || source in s.seen
  }

  datatype Step =
    | StartRead(r: nat, key: Key, found: Lookup)
    | ReadStore(r: nat)
    | Insert(r: nat, stored: bool)
    | Drop                                                // expiry
    | CommitTiles(w: nat, source: string, store': Store)  // the updater's transaction
    | Invalidate(w: nat)
    | ExternalWrite(source: string, store': Store)        // another process commits
    | Observe(source: string)                             // the watcher reads the version ...
    | Act(source: string)                                 // ... and compares it with the last

  // Only tiles of one source differ, all of them among the keys.
  ghost predicate Rewrites(store: Store, store': Store, source: string, keys: set<Key>) {
    && (forall k :: k in keys ==> k.source == source)
    && (forall k :: k !in keys ==> Stored(store', k) == Stored(store, k))
  }

  ghost predicate OnlySource(store: Store, store': Store, source: string) {
    forall k: Key :: k.source != source ==> Stored(store', k) == Stored(store, k)
  }

  ghost predicate Next(s: State, step: Step, s': State) {
    match step
    case StartRead(r, key, found) =>
      && r !in s.readers
      && LookedUp(s.cache, s'.cache, key, found)
      && s' == s.(cache := s'.cache,
          readers := if found.Miss? then s.readers[r := Missed(key, found.generation)] else s.readers)
    case ReadStore(r) =>
      && r in s.readers && s.readers[r].Missed?
      && var m := s.readers[r];
      s' == s.(readers := s.readers[r := HasRead(m.key, m.generation, Stored(s.store, m.key))])
    case Insert(r, stored) =>
      && r in s.readers && s.readers[r].HasRead?
      && var h := s.readers[r];
      && Inserted(s.cache, s'.cache, h.key, h.tile, h.generation, stored)
      && s' == s.(cache := s'.cache, readers := s.readers - {r})
    case Drop =>
      && SameGens(s.cache.gens, s'.cache.gens) && Shrinks(s.cache, s'.cache)
      && s' == s.(cache := s'.cache)
    case CommitTiles(w, source, store') =>
      && w !in s.commits && w in s'.commits && s'.commits[w].source == source
      && Rewrites(s.store, store', source, s'.commits[w].keys)
      && s' == s.(store := store', commits := s.commits[w := s'.commits[w]])
    case Invalidate(w) =>
      && w in s.commits
      && var c := s.commits[w];
      && Invalidated(s.cache, s'.cache, c.source, c.keys)
      && s' == s.(cache := s'.cache, commits := s.commits - {w})
    case ExternalWrite(source, store') =>
      && OnlySource(s.store, store', source)
      && s' == s.(store := store', version := s.version[source := Version(s, source) + 1],
          missed := if Watched(s, source) then s.missed else s.missed + {source})
    case Observe(source) =>
      && source !in s.seen
      && s' == s.(seen := s.seen[source := Version(s, source)])
    case Act(source) =>
      && source in s.seen
      && var v := s.seen[source];
      if Clears(s, source) then
        && Cleared(s.cache, s'.cache, source)
        && s' == s.(cache := s'.cache, last := s.last[source := v], seen := s.seen - {source}, missed := s.missed - {source})
      else s' == s.(last := s.last[source := v], seen := s.seen - {source})
  }

  // ------------------------------------------------------------- the invariant

  // The version the watcher will compare with is not the current one.
  predicate Behind(s: State, source: string) {
    if source in s.last then s.last[source] != Version(s, source)
    else source in s.seen && s.seen[source] != Version(s, source)
  }

  // Another process has written the source and the cache has not been cleared for
  // it: the watcher will see a new version, or it was not watching.
  ghost predicate Dirty(s: State, source: string) {
    source in s.missed || Behind(s, source)
  }

  ghost predicate AwaitsInvalidation(s: State, key: Key) {
    exists w :: w in s.commits && key in s.commits[w].keys
  }

  // A tile may be older than the store only while one of these is pending.
  ghost predicate Excused(s: State, key: Key) {
    AwaitsInvalidation(s, key) || Dirty(s, key.source)
  }

  ghost predicate CachedFresh(s: State) {
    forall k :: k in s.cache.content ==> s.cache.content[k] == Stored(s.store, k) || Excused(s, k)
  }

  ghost predicate ReaderFresh(s: State, h: Reader) {
    && h.generation <= Gen(s.cache.gens, h.key.source)
    && (h.HasRead? && h.generation == Gen(s.cache.gens, h.key.source) ==>
      h.tile == Stored(s.store, h.key) || Excused(s, h.key))
  }

  ghost predicate ReadersFresh(s: State) {
    forall r :: r in s.readers ==> ReaderFresh(s, s.readers[r])
  }

  ghost predicate Tidy(s: State) {
    && (forall w, k :: w in s.commits && k in s.commits[w].keys ==> k.source == s.commits[w].source)
    && (forall c :: c in s.last ==> s.last[c] <= Version(s, c))
    && (forall c :: c in s.seen ==> s.seen[c] <= Version(s, c))
  }

  ghost predicate Coherent(s: State) {
    Tidy(s) && CachedFresh(s) && ReadersFresh(s)
  }

  ghost predicate Start(s: State) {
    && s.cache.content == map[] && s.readers == map[] && s.commits == map[]
    && s.version == map[] && s.last == map[] && s.seen == map[] && s.missed == {}
  }

  lemma StartIsCoherent(s: State)
    requires Start(s)
    ensures Coherent(s)
  {}

  // ------------------------------------------------------------- every step keeps it

  lemma StartReadKeeps(s: State, r: nat, key: Key, found: Lookup, s': State)
    requires Coherent(s) && Next(s, StartRead(r, key, found), s')
    ensures Coherent(s')
  {
    SameExcuses(s, s');
    hide Excused, ReaderFresh, SameGens;
    forall q | q in s'.readers ensures ReaderFresh(s', s'.readers[q]) {
      if q in s.readers { ReaderStays(s, s', s.readers[q]); } else { MissIsFresh(s', s'.readers[q]); }
    }
    hide ReadersFresh, Tidy;
  }

  lemma SameExcuses(s: State, s': State)
    requires s'.commits == s.commits && s'.missed == s.missed && s'.last == s.last && s'.seen == s.seen && s'.version == s.version
    ensures forall k :: Excused(s', k) == Excused(s, k)
  {}

  lemma ReaderStays(s: State, s': State, h: Reader)
    requires ReaderFresh(s, h) && SameGens(s.cache.gens, s'.cache.gens) && s'.store == s.store && Excused(s', h.key) == Excused(s, h.key)
    ensures ReaderFresh(s', h)
  {
    hide Excused;
  }

  lemma MissIsFresh(s: State, h: Reader)
    requires h.Missed? && h.generation <= Gen(s.cache.gens, h.key.source)
    ensures ReaderFresh(s, h)
  {}

  lemma ReadStoreKeeps(s: State, r: nat, s': State)
    requires Coherent(s) && Next(s, ReadStore(r), s')
    ensures Coherent(s')
  {
    assert forall k :: Excused(s', k) == Excused(s, k);
    assert ReaderFresh(s, s.readers[r]);
    forall q | q in s'.readers ensures ReaderFresh(s', s'.readers[q]) {
      if q != r { assert ReaderFresh(s, s.readers[q]); }
    }
  }

  lemma InsertKeeps(s: State, r: nat, stored: bool, s': State)
    requires Coherent(s) && Next(s, Insert(r, stored), s')
    ensures Coherent(s')
  {
    assert forall k :: Excused(s', k) == Excused(s, k);
    assert ReaderFresh(s, s.readers[r]);
    forall q | q in s'.readers ensures ReaderFresh(s', s'.readers[q]) {
      assert ReaderFresh(s, s.readers[q]);
    }
  }

  lemma DropKeeps(s: State, s': State)
    requires Coherent(s) && Next(s, Drop, s')
    ensures Coherent(s')
  {
    assert forall k :: Excused(s', k) == Excused(s, k);
    forall q | q in s'.readers ensures ReaderFresh(s', s'.readers[q]) {
      assert ReaderFresh(s, s.readers[q]);
    }
  }

  lemma CommitExcuses(s: State, w: nat, source: string, store': Store, s': State, key: Key)
    requires Next(s, CommitTiles(w, source, store'), s')
    ensures Excused(s, key) ==> Excused(s', key)
    ensures key in s'.commits[w].keys ==> Excused(s', key)
  {
    if AwaitsInvalidation(s, key) {
      var v :| v in s.commits && key in s.commits[v].keys;
      assert v in s'.commits && key in s'.commits[v].keys;
    }
    if key in s'.commits[w].keys { assert AwaitsInvalidation(s', key); }
  }

  lemma CommitKeeps(s: State, w: nat, source: string, store': Store, s': State)
    requires Coherent(s) && Next(s, CommitTiles(w, source, store'), s')
    ensures Coherent(s')
  {
    forall k | k in s'.cache.content
      ensures s'.cache.content[k] == Stored(s'.store, k) || Excused(s', k)
    {
      CommitExcuses(s, w, source, store', s', k);
    }
    forall q | q in s'.readers ensures ReaderFresh(s', s'.readers[q]) {
      assert ReaderFresh(s, s.readers[q]);
      CommitExcuses(s, w, source, store', s', s.readers[q].key);
    }
  }

  // A commit that is invalidated leaves only tiles excused by something else.
  lemma InvalidateExcuses(s: State, w: nat, s': State, key: Key)
    requires Next(s, Invalidate(w), s') && Excused(s, key) && key !in s.commits[w].keys
    ensures Excused(s', key)
  {
    if AwaitsInvalidation(s, key) {
      var v :| v in s.commits && key in s.commits[v].keys;
      assert v in s'.commits && key in s'.commits[v].keys;
    }
  }

  lemma InvalidateKeeps(s: State, w: nat, s': State)
    requires Coherent(s) && Next(s, Invalidate(w), s')
    ensures Coherent(s')
  {
    forall k | k in s'.cache.content
      ensures s'.cache.content[k] == Stored(s'.store, k) || Excused(s', k)
    {
      if Excused(s, k) { InvalidateExcuses(s, w, s', k); }
    }
    forall q | q in s'.readers ensures ReaderFresh(s', s'.readers[q]) {
      var h := s.readers[q];
      assert ReaderFresh(s, h);
      if Excused(s, h.key) && h.key !in s.commits[w].keys { InvalidateExcuses(s, w, s', h.key); }
    }
  }

  lemma ExternalWriteKeeps(s: State, source: string, store': Store, s': State)
    requires Coherent(s) && Next(s, ExternalWrite(source, store'), s')
    ensures Coherent(s')
  {
    assert Dirty(s', source);
    forall k ensures Excused(s, k) ==> Excused(s', k) {
      assert AwaitsInvalidation(s, k) == AwaitsInvalidation(s', k);
    }
    forall q | q in s'.readers ensures ReaderFresh(s', s'.readers[q]) {
      assert ReaderFresh(s, s.readers[q]);
    }
  }

  lemma ObserveKeeps(s: State, source: string, s': State)
    requires Coherent(s) && Next(s, Observe(source), s')
    ensures Coherent(s')
  {
    assert forall k :: Excused(s', k) == Excused(s, k);
    forall q | q in s'.readers ensures ReaderFresh(s', s'.readers[q]) {
      assert ReaderFresh(s, s.readers[q]);
    }
  }

  // The watcher finds another version than the last one.
  predicate Clears(s: State, source: string) {
    source in s.seen && source in s.last && s.last[source] != s.seen[source]
  }

  lemma ActExcuses(s: State, source: string, s': State, key: Key)
    requires Tidy(s) && Next(s, Act(source), s') && Excused(s, key)
    requires key.source == source ==> !Clears(s, source)
    ensures Excused(s', key)
  {
    assert AwaitsInvalidation(s, key) == AwaitsInvalidation(s', key);
  }

  lemma ActKeeps(s: State, source: string, s': State)
    requires Coherent(s) && Next(s, Act(source), s')
    ensures Coherent(s')
  {
    forall k | k in s'.cache.content
      ensures s'.cache.content[k] == Stored(s'.store, k) || Excused(s', k)
    {
      if Excused(s, k) && (k.source == source ==> !Clears(s, source)) { ActExcuses(s, source, s', k); }
    }
    hide Excused, ReaderFresh, CachedFresh, Clears, Tidy;
    forall q | q in s'.readers ensures ReaderFresh(s', s'.readers[q]) { ActReaderKeeps(s, source, s', s.readers[q]); }
  }

  lemma ActReaderKeeps(s: State, source: string, s': State, h: Reader)
    requires Tidy(s) && ReaderFresh(s, h) && Next(s, Act(source), s')
    ensures ReaderFresh(s', h)
  {
    hide Excused;
    if Excused(s, h.key) && (h.key.source == source ==> !Clears(s, source)) { ActExcuses(s, source, s', h.key); }
  }

  lemma StepKeeps(s: State, step: Step, s': State)
    requires Coherent(s) && Next(s, step, s')
    ensures Coherent(s')
  {
    hide Coherent, Next;
    match step
    case StartRead(r, key, found) => StartReadKeeps(s, r, key, found, s');
    case ReadStore(r) => ReadStoreKeeps(s, r, s');
    case Insert(r, stored) => InsertKeeps(s, r, stored, s');
    case Drop => DropKeeps(s, s');
    case CommitTiles(w, source, store') => CommitKeeps(s, w, source, store', s');
    case Invalidate(w) => InvalidateKeeps(s, w, s');
    case ExternalWrite(source, store') => ExternalWriteKeeps(s, source, store', s');
    case Observe(source) => ObserveKeeps(s, source, s');
    case Act(source) => ActKeeps(s, source, s');
  }

  // ------------------------------------------------------------- whole runs

  // Each step leads from one state to the next.
  ghost predicate Path(states: seq<State>, steps: seq<Step>) {
    && |states| == |steps| + 1
    && forall i :: 0 <= i < |steps| ==> Next(states[i], steps[i], states[i + 1])
  }

  ghost predicate Run(states: seq<State>, steps: seq<Step>) {
    Path(states, steps) && Start(states[0])
  }

  lemma {:induction false} RunIsCoherent(states: seq<State>, steps: seq<Step>, n: nat)
    requires Run(states, steps) && n < |states|
    ensures Coherent(states[n])
  {
    if n == 0 {
      StartIsCoherent(states[0]);
    } else {
      RunIsCoherent(states, steps, n - 1);
      StepKeeps(states[n - 1], steps[n - 1], states[n]);
    }
  }

  // With every commit invalidated, no foreign write missed and no version the watcher
  // has yet to act on, the cache serves what the store holds.
  lemma QuietCacheIsExact(states: seq<State>, steps: seq<Step>, n: nat, key: Key)
    requires Run(states, steps) && n < |states|
    requires key in states[n].cache.content
    requires forall w :: w in states[n].commits ==> key !in states[n].commits[w].keys
    requires !Dirty(states[n], key.source)
    ensures states[n].cache.content[key] == Stored(states[n].store, key)
  {
    RunIsCoherent(states, steps, n);
    assert !AwaitsInvalidation(states[n], key);
  }

  // Without other writers that is: as soon as nothing awaits its invalidation.
  lemma {:induction false} NoOtherWriters(states: seq<State>, steps: seq<Step>, n: nat, source: string)
    requires Run(states, steps) && n < |states|
    requires forall i :: 0 <= i < n && steps[i].ExternalWrite? ==> steps[i].source != source
    ensures Version(states[n], source) == 0 && !Dirty(states[n], source)
  {
    if n > 0 {
      NoOtherWriters(states, steps, n - 1, source);
      RunIsCoherent(states, steps, n - 1);
      VersionsMove(states[n - 1], steps[n - 1], states[n], source);
    }
  }

  lemma VersionsMove(s: State, step: Step, s': State, source: string)
    requires Tidy(s) && Next(s, step, s') && !(step.ExternalWrite? && step.source == source)
    ensures Version(s', source) == Version(s, source)
    ensures Version(s, source) == 0 && !Dirty(s, source) ==> !Dirty(s', source)
  {
    hide LookedUp, Inserted, Invalidated, Cleared, SameGens, Shrinks, Rewrites, OnlySource;
  }

  // A read that started before a commit and is inserted after its invalidation is
  // always refused.
  lemma StaleInsertRefused(s: State, r: nat, stored: bool, s': State)
    requires Coherent(s) && Next(s, Insert(r, stored), s')
    requires s.readers[r].tile != Stored(s.store, s.readers[r].key) && !Excused(s, s.readers[r].key)
    ensures !stored && s'.cache.content == s.cache.content
  {
    assert ReaderFresh(s, s.readers[r]);
  }

  // ------------------------------------------------------------- foreign writes

  // A foreign write and one poll after it, from any state in which no poll is under
  // way: the source's tiles are cleared exactly when the watcher had a baseline.
  // Otherwise the poll takes the new version for its baseline and the cache stays.
  lemma OnePollAfterWrite(s: State, source: string, store': Store, s1: State, s2: State, s3: State, key: Key)
    requires Tidy(s) && source !in s.seen
    requires Next(s, ExternalWrite(source, store'), s1) && Next(s1, Observe(source), s2) && Next(s2, Act(source), s3)
    requires key in s.cache.content && key.source == source
    ensures key !in s3.cache.content <==> source in s.last
    ensures source !in s.last ==> s3.cache == s.cache
    ensures source in s3.last && s3.last[source] == Version(s1, source) == Version(s3, source)
  {}

  // Step j is a poll's comparison that clears the source.
  predicate ClearsAt(states: seq<State>, steps: seq<Step>, j: nat, source: string)
    requires j < |steps| < |states|
  {
    steps[j] == Act(source) && Clears(states[j], source)
  }

  // Until a watched write is cleared, what the watcher compares with is older.
  lemma {:induction false} WatchedUntilCleared(states: seq<State>, steps: seq<Step>, n: nat, source: string)
    requires Path(states, steps) && 0 < n < |states| && Tidy(states[0])
    requires steps[0].ExternalWrite? && steps[0].source == source && Watched(states[0], source)
    requires forall j :: 0 < j < n ==> !ClearsAt(states, steps, j, source)
    ensures var s, v := states[n], Version(states[1], source);
      if source in s.last then s.last[source] < v else source in s.seen && s.seen[source] < v
  {
    assert Next(states[n - 1], steps[n - 1], states[n]);
    if n > 1 {
      WatchedUntilCleared(states, steps, n - 1, source);
      assert !ClearsAt(states, steps, n - 1, source);
    }
  }

  // A write that was not watched is all the watcher will ever know of the source.
  lemma {:induction false} UnwatchedStays(states: seq<State>, steps: seq<Step>, n: nat, source: string)
    requires Path(states, steps) && 0 < n < |states|
    requires steps[0].ExternalWrite? && steps[0].source == source && !Watched(states[0], source)
    requires forall j :: 0 < j < n && steps[j].ExternalWrite? ==> steps[j].source != source
    ensures var s := states[n];
      && Version(s, source) == Version(states[1], source)
      && (source in s.last ==> s.last[source] == Version(s, source))
      && (source in s.seen ==> s.seen[source] == Version(s, source))
    ensures forall j :: 0 < j < n ==> !ClearsAt(states, steps, j, source)
  {
    assert Next(states[n - 1], steps[n - 1], states[n]);
    if n > 1 { UnwatchedStays(states, steps, n - 1, source); }
  }

  // After a foreign write in any state, once the watcher has polled the last foreign
  // write: some poll since has cleared the source exactly when it was watched then.
  lemma ClearedIffWatched(states: seq<State>, steps: seq<Step>, n: nat, source: string)
    requires Path(states, steps) && 0 < n < |states| && Tidy(states[0])
    requires steps[0].ExternalWrite? && steps[0].source == source
    requires forall j :: 0 < j < n && steps[j].ExternalWrite? ==> steps[j].source != source
    requires source in states[n].last && states[n].last[source] == Version(states[n], source)
    ensures (exists j :: 0 < j < n && ClearsAt(states, steps, j, source)) <==> Watched(states[0], source)
  {
    if !Watched(states[0], source) {
      UnwatchedStays(states, steps, n, source);
    } else if forall j :: 0 < j < n ==> !ClearsAt(states, steps, j, source) {
      WatchedUntilCleared(states, steps, n, source);
      VersionStays(states, steps, n, source);
    }
  }

  lemma {:induction false} VersionStays(states: seq<State>, steps: seq<Step>, n: nat, source: string)
    requires Path(states, steps) && 0 < n < |states|
    requires forall j :: 0 < j < n && steps[j].ExternalWrite? ==> steps[j].source != source
    ensures Version(states[n], source) == Version(states[1], source)
  {
    if n > 1 {
      VersionStays(states, steps, n - 1, source);
      assert Next(states[n - 1], steps[n - 1], states[n]);
    }
  }

  // A foreign write at step k that was not watched and not cleared before state n.
  predicate MissedWrite(states: seq<State>, steps: seq<Step>, k: nat, n: nat, source: string)
    requires k < n <= |steps| < |states|
  {
    && steps[k].ExternalWrite? && steps[k].source == source && !Watched(states[k], source)
    && forall j :: k < j < n ==> !ClearsAt(states, steps, j, source)
  }

  lemma MissedMoves(s: State, step: Step, s': State, source: string)
    requires Next(s, step, s')
    ensures source in s'.missed <==>
      || (step.ExternalWrite? && step.source == source && !Watched(s, source))
      || (source in s.missed && !(step == Act(source) && Clears(s, source)))
  {
    hide LookedUp, Inserted, Invalidated, Cleared, SameGens, Shrinks, Rewrites, OnlySource;
  }

  lemma {:induction false} MissedIsHistory(states: seq<State>, steps: seq<Step>, n: nat, source: string)
    requires Run(states, steps) && n < |states|
    ensures source in states[n].missed <==> exists k :: 0 <= k < n && MissedWrite(states, steps, k, n, source)
  {
    if n > 0 {
      MissedIsHistory(states, steps, n - 1, source);
      MissedMoves(states[n - 1], steps[n - 1], states[n - 1 + 1], source);
      hide Next, Watched, Start;
      if source in states[n].missed {
        if steps[n - 1].ExternalWrite? && steps[n - 1].source == source && !Watched(states[n - 1], source) {
          assert MissedWrite(states, steps, n - 1, n, source);
        } else {
          var k :| 0 <= k < n - 1 && MissedWrite(states, steps, k, n - 1, source);
          assert MissedWrite(states, steps, k, n, source);
        }
      }
      if k :| 0 <= k < n && MissedWrite(states, steps, k, n, source) {
        if k < n - 1 {
          assert MissedWrite(states, steps, k, n - 1, source);
          assert !ClearsAt(states, steps, n - 1, source);
        }
      }
    }
  }

  // With every commit invalidated, every foreign write watched (or cleared later) and
  // the watcher at the current version, the cache serves what the store holds.
  lemma WatchedCacheIsExact(states: seq<State>, steps: seq<Step>, n: nat, key: Key)
    requires Run(states, steps) && n < |states|
    requires key in states[n].cache.content
    requires forall w :: w in states[n].commits ==> key !in states[n].commits[w].keys
    requires forall k :: 0 <= k < n ==> !MissedWrite(states, steps, k, n, key.source)
    requires !Behind(states[n], key.source)
    ensures states[n].cache.content[key] == Stored(states[n].store, key)
  {
    MissedIsHistory(states, steps, n, key.source);
    QuietCacheIsExact(states, steps, n, key);
  }

  // What becomes of a tile when another process rewrites it, unwatched, and the watcher
  // then polls: the old tile stays, with nothing left to clear it.
  lemma UnwatchedWriteStays(s: State, key: Key, tile: CachedTile) returns (s1: State, s2: State, s3: State)
    requires !Watched(s, key.source)
    ensures Next(s, ExternalWrite(key.source, s.store[key := tile]), s1)
    ensures Next(s1, Observe(key.source), s2) && Next(s2, Act(key.source), s3)
    ensures s3.cache == s.cache && s3.readers == s.readers && s3.commits == s.commits && s3.seen == s.seen
    ensures Stored(s3.store, key) == tile && key.source in s3.last && !Behind(s3, key.source)
  {
    var source := key.source;
    var v := Version(s, source) + 1;
    s1 := s.(store := s.store[key := tile], version := s.version[source := v], missed := s.missed + {source});
    s2 := s1.(seen := s1.seen[source := v]);
    s3 := s2.(last := s2.last[source := v], seen := s2.seen - {source});
    assert s3.seen == s.seen;
  }

  // A first request is read, and cached.
  lemma FirstRequest(key: Key, tile: CachedTile) returns (s0: State, s1: State, s2: State, s3: State)
    ensures Start(s0) && Next(s0, StartRead(0, key, Miss(0)), s1)
    ensures Next(s1, ReadStore(0), s2) && Next(s2, Insert(0, true), s3)
    ensures s3.cache.content == map[key := tile] && !Watched(s3, key.source)
    ensures s3.commits == map[] && s3.readers == map[] && s3.seen == map[]
  {
    hide Invalidated, Rewrites;
    s0 := State(map[key := tile], View(map[], map[]), map[], map[], map[], map[], map[], {});
    s1 := s0.(readers := map[0 := Missed(key, 0)]);
    s2 := s1.(readers := map[0 := HasRead(key, 0, tile)]);
    s3 := s0.(cache := View(map[key := tile], map[]));
    assert s0.cache.content - {key} == s0.cache.content;
    assert s2.readers - {0} == map[];
  }

  // The watcher cannot make up for a write that came before its first poll.
  lemma EarlyWriteIsMissed(key: Key, old_: CachedTile, new_: CachedTile) returns (states: seq<State>, steps: seq<Step>)
    ensures Run(states, steps)
    ensures var s := states[|steps|];
      && s.cache.content == map[key := old_] && Stored(s.store, key) == new_
      && s.commits == map[] && s.readers == map[] && s.seen == map[]
      && key.source in s.last && s.last[key.source] == Version(s, key.source)
  {
    hide Next;
    var s0, s1, s2, s3 := FirstRequest(key, old_);
    var s4, s5, s6 := UnwatchedWriteStays(s3, key, new_);
    states := [s0, s1, s2, s3, s4, s5, s6];
    steps := [StartRead(0, key, Miss(0)), ReadStore(0), Insert(0, true),
      ExternalWrite(key.source, s3.store[key := new_]), Observe(key.source), Act(key.source)];
  }
}
