// The tile cache (src/cache.rs): two maps and a byte budget, least recently used
// out first.

// What the rest of the server sees of a cache: the tiles it would serve and the
// generation of each source.
module CacheView {
  import opened Words

  datatype Key = Key(source: string, z: nat, x: nat, y: nat)

  datatype CachedTile = Empty | Tile(data: Bytes, etag: string)

  datatype View = View(content: map<Key, CachedTile>, gens: map<string, nat>)

  // A source nobody asked for yet is at generation 0.
  function Gen(gens: map<string, nat>, source: string): nat {
    if source in gens then gens[source] else 0
  }

  ghost predicate SameGens(gens: map<string, nat>, gens': map<string, nat>) {
    forall s :: Gen(gens', s) == Gen(gens, s)
  }

  ghost predicate Bumped(gens: map<string, nat>, gens': map<string, nat>, source: string) {
    forall s :: Gen(gens', s) == Gen(gens, s) + if s == source then 1 else 0
  }

  // Nothing is cached that was not cached before.
  ghost predicate Shrinks(v: View, v': View) {
    forall k :: k in v'.content ==> k in v.content && v'.content[k] == v.content[k]
  }

  datatype Lookup = Hit(tile: CachedTile) | Miss(generation: nat)

  ghost predicate LookedUp(v: View, v': View, key: Key, r: Lookup) {
    && SameGens(v.gens, v'.gens)
    && Shrinks(v, v')
    && (match r
        case Hit(tile) => v'.content == v.content && key in v.content && v.content[key] == tile
        case Miss(g) => g == Gen(v.gens, key.source) && v'.content == v.content - {key})
  }

  ghost predicate Inserted(v: View, v': View, key: Key, tile: CachedTile, generation: nat, stored: bool) {
    && SameGens(v.gens, v'.gens)
    && (!stored ==> v'.content == v.content)
    && (stored ==>
      && generation == Gen(v.gens, key.source)
      && key in v'.content && v'.content[key] == tile
      && forall k :: k in v'.content && k != key ==> k in v.content && v'.content[k] == v.content[k])
  }

  ghost predicate Invalidated(v: View, v': View, source: string, keys: set<Key>) {
    Bumped(v.gens, v'.gens, source) && v'.content == v.content - keys
  }

  ghost predicate Cleared(v: View, v': View, source: string) {
    && Bumped(v.gens, v'.gens, source)
    && v'.content == OtherSources(v.content, source)
  }

  function OtherSources(content: map<Key, CachedTile>, source: string): map<Key, CachedTile> {
    map k | k in content && k.source != source :: content[k]
  }
}

module Cache {
  import opened Words
  import opened CacheView

  // Per-entry memory beyond the tile bytes and the ETag.
  const ENTRY_OVERHEAD: nat := 160

  function Size(tile: CachedTile): nat {
    ENTRY_OVERHEAD + match tile { case Empty => 0 case Tile(data, etag) => |data| + |etag| }
  }

  datatype Entry = Entry(tile: CachedTile, size: nat, tick: nat)

  // ------------------------------------------------------------- the simple form

  // Cached tiles, least recently used first.
  datatype Item = Item(key: Key, tile: CachedTile)

  function Total(r: seq<Item>): nat {
    if r == [] then 0 else Size(r[0].tile) + Total(r[1..])
  }

  function Without(r: seq<Item>, key: Key): seq<Item> {
    if r == [] then []
    else if r[0].key == key then Without(r[1..], key)
    else [r[0]] + Without(r[1..], key)
  }

  // Evict from the front until the rest fits.
  function Fit(r: seq<Item>, budget: nat): seq<Item> {
    if Total(r) <= budget then r
    else Fit(r[1..], budget)
  }

  function WithoutAll(r: seq<Item>, keys: seq<Key>): seq<Item> {
    if keys == [] then r else Without(WithoutAll(r, keys[..|keys| - 1]), keys[|keys| - 1])
  }

  function WithoutSource(r: seq<Item>, source: string): seq<Item> {
    if r == [] then []
    else if r[0].key.source == source then WithoutSource(r[1..], source)
    else [r[0]] + WithoutSource(r[1..], source)
  }

  // Fit keeps exactly the longest most recently used suffix within the budget.
  lemma {:induction false} FitIsLongestSuffix(r: seq<Item>, budget: nat) returns (i: nat)
    ensures i <= |r| && Fit(r, budget) == r[i..] && Total(r[i..]) <= budget
    ensures forall j :: 0 <= j < i ==> Total(r[j..]) > budget
  {
    if Total(r) <= budget {
      i := 0;
      assert r[0..] == r;
    } else {
      var i' := FitIsLongestSuffix(r[1..], budget);
      i := i' + 1;
      assert r[1..][i'..] == r[i..];
      forall j | 0 <= j < i ensures Total(r[j..]) > budget {
        if j == 0 { assert r[0..] == r; } else { assert r[1..][j - 1..] == r[j..]; }
      }
    }
  }

  // ------------------------------------------------------------- the two maps

  datatype State = State(entries: map<Key, Entry>, order: map<nat, Key>, nextTick: nat, bytes: nat)

  // Key to tick and tick to key are inverse, and all ticks are used up.
  ghost predicate TwoMaps(s: State) {
    && (forall k :: k in s.entries ==> s.entries[k].tick in s.order && s.order[s.entries[k].tick] == k)
    && (forall t :: t in s.order ==> s.order[t] in s.entries && s.entries[s.order[t]].tick == t && t < s.nextTick)
    && (forall k :: k in s.entries ==> s.entries[k].size == Size(s.entries[k].tile))
  }

  // The maps hold the items of the list, in the order of their ticks.
  ghost predicate Holds(entries: map<Key, Entry>, r: seq<Item>) {
    && (forall i :: 0 <= i < |r| ==> r[i].key in entries && entries[r[i].key].tile == r[i].tile)
    && (forall i, j :: 0 <= i < j < |r| ==> entries[r[i].key].tick < entries[r[j].key].tick)
  }

  ghost predicate Lists(r: seq<Item>, k: Key) {
    exists i :: 0 <= i < |r| && r[i].key == k
  }

  ghost predicate Mirrors(entries: map<Key, Entry>, r: seq<Item>) {
    Holds(entries, r) && forall k :: k in entries ==> Lists(r, k)
  }

  ghost predicate WellFormed(s: State, r: seq<Item>) {
    TwoMaps(s) && Mirrors(s.entries, r) && s.bytes == Total(r)
  }

  // ------------------------------------------------------------- list lemmas

  lemma {:induction false} TotalAppend(a: seq<Item>, b: seq<Item>)
    ensures Total(a + b) == Total(a) + Total(b)
  {
    if a == [] { assert a + b == b; }
    else {
      assert (a + b)[1..] == a[1..] + b;
      TotalAppend(a[1..], b);
    }
  }

  lemma {:induction false} WithoutAbsent(r: seq<Item>, key: Key)
    requires forall i :: 0 <= i < |r| ==> r[i].key != key
    ensures Without(r, key) == r
  {
    if r != [] { WithoutAbsent(r[1..], key); }
  }

  lemma {:induction false} WithoutAt(r: seq<Item>, i: nat, key: Key)
    requires i < |r| && r[i].key == key
    requires forall j :: 0 <= j < |r| && j != i ==> r[j].key != key
    ensures Without(r, key) == r[..i] + r[i + 1..]
    ensures Total(r) == Total(r[..i] + r[i + 1..]) + Size(r[i].tile)
  {
    if i == 0 {
      WithoutAbsent(r[1..], key);
      assert r[..0] + r[1..] == r[1..];
    } else {
      forall j | 0 <= j < |r[1..]| && j != i - 1 ensures r[1..][j].key != key { assert r[1..][j] == r[j + 1]; }
      WithoutAt(r[1..], i - 1, key);
      assert r[..i] + r[i + 1..] == [r[0]] + (r[1..][..i - 1] + r[1..][i..]);
      assert (r[..i] + r[i + 1..])[1..] == r[1..][..i - 1] + r[1..][i..];
    }
  }

  // ------------------------------------------------------------- map lemmas

  // Where a cached key stands in the list: once.
  lemma PlaceOf(s: State, r: seq<Item>, key: Key) returns (i: nat)
    requires WellFormed(s, r) && key in s.entries
    ensures i < |r| && r[i] == Item(key, s.entries[key].tile)
    ensures forall j :: 0 <= j < |r| && j != i ==> r[j].key != key
  {
    assert Lists(r, key);
    i :| 0 <= i < |r| && r[i].key == key;
    forall j | 0 <= j < |r| && j != i ensures r[j].key != key {
      if j < i { assert s.entries[r[j].key].tick < s.entries[r[i].key].tick; }
      else { assert s.entries[r[i].key].tick < s.entries[r[j].key].tick; }
    }
  }

  function Removed(s: State, key: Key): State
    requires key in s.entries && s.entries[key].size <= s.bytes
  {
    State(s.entries - {key}, s.order - {s.entries[key].tick}, s.nextTick, s.bytes - s.entries[key].size)
  }

  lemma RemoveMirrors(s: State, r: seq<Item>, key: Key, i: nat)
    requires Mirrors(s.entries, r) && key in s.entries && i < |r| && r[i].key == key
    requires forall j :: 0 <= j < |r| && j != i ==> r[j].key != key
    ensures Mirrors(s.entries - {key}, r[..i] + r[i + 1..])
  {
    RemoveHolds(s.entries, r, key, i);
    forall k | k in s.entries - {key} ensures Lists(r[..i] + r[i + 1..], k) {
      ListedAfterRemoval(r, key, i, k);
    }
  }

  lemma RemoveHolds(entries: map<Key, Entry>, r: seq<Item>, key: Key, i: nat)
    requires Holds(entries, r) && i < |r| && r[i].key == key
    requires forall j :: 0 <= j < |r| && j != i ==> r[j].key != key
    ensures Holds(entries - {key}, r[..i] + r[i + 1..])
  {
    var r' := r[..i] + r[i + 1..];
    assert forall j :: 0 <= j < |r'| ==> r'[j] == r[if j < i then j else j + 1];
  }

  lemma ListedAfterRemoval(r: seq<Item>, key: Key, i: nat, k: Key)
    requires Lists(r, k) && k != key && i < |r| && r[i].key == key
    ensures Lists(r[..i] + r[i + 1..], k)
  {
    var r' := r[..i] + r[i + 1..];
    var j :| 0 <= j < |r| && r[j].key == k;
    assert r'[if j < i then j else j - 1].key == k;
  }

  lemma RemoveTwoMaps(s: State, key: Key)
    requires TwoMaps(s) && key in s.entries && s.entries[key].size <= s.bytes
    ensures TwoMaps(Removed(s, key))
  {}

  lemma RemoveKeeps(s: State, r: seq<Item>, key: Key)
    requires WellFormed(s, r) && key in s.entries
    ensures s.entries[key].size <= s.bytes
    ensures WellFormed(Removed(s, key), Without(r, key))
  {
    var i := PlaceOf(s, r, key);
    WithoutAt(r, i, key);
    RemoveTwoMaps(s, key);
    RemoveMirrors(s, r, key, i);
  }

  lemma AbsentKeeps(s: State, r: seq<Item>, key: Key)
    requires WellFormed(s, r) && key !in s.entries
    ensures Without(r, key) == r
  {
    WithoutAbsent(r, key);
  }

  function Pushed(s: State, key: Key, tile: CachedTile): State {
    State(s.entries[key := Entry(tile, Size(tile), s.nextTick)], s.order[s.nextTick := key], s.nextTick + 1, s.bytes + Size(tile))
  }

  lemma PushMirrors(s: State, r: seq<Item>, key: Key, tile: CachedTile)
    requires TwoMaps(s) && Mirrors(s.entries, r) && key !in s.entries
    ensures Mirrors(Pushed(s, key, tile).entries, r + [Item(key, tile)])
  {
    forall k | k in Pushed(s, key, tile).entries ensures Lists(r + [Item(key, tile)], k) {
      ListedAfterPush(r, Item(key, tile), k);
    }
    PushHolds(s, r, key, tile);
  }

  lemma PushHolds(s: State, r: seq<Item>, key: Key, tile: CachedTile)
    requires TwoMaps(s) && Holds(s.entries, r) && key !in s.entries
    ensures Holds(Pushed(s, key, tile).entries, r + [Item(key, tile)])
  {
    var e' := Pushed(s, key, tile).entries;
    forall i | 0 <= i < |r| ensures r[i].key in e' && e'[r[i].key] == s.entries[r[i].key] && e'[r[i].key].tick < s.nextTick {
      assert s.entries[r[i].key].tick in s.order;
    }
  }

  lemma ListedAfterPush(r: seq<Item>, item: Item, k: Key)
    requires Lists(r, k) || k == item.key
    ensures Lists(r + [item], k)
  {
    var r' := r + [item];
    if k == item.key { assert r'[|r|].key == k; }
    else {
      var j :| 0 <= j < |r| && r[j].key == k;
      assert r'[j].key == k;
    }
  }

  lemma PushKeeps(s: State, r: seq<Item>, key: Key, tile: CachedTile)
    requires WellFormed(s, r) && key !in s.entries
    ensures WellFormed(Pushed(s, key, tile), r + [Item(key, tile)])
  {
    PushMirrors(s, r, key, tile);
    PushTwoMaps(s, key, tile);
    hide TwoMaps, Mirrors;
    TotalAppend(r, [Item(key, tile)]);
  }

  lemma PushTwoMaps(s: State, key: Key, tile: CachedTile)
    requires TwoMaps(s) && key !in s.entries
    ensures TwoMaps(Pushed(s, key, tile))
  {
    hide Size;
  }

  // The smallest tick is the one of the least recently used tile.
  lemma FirstIsLeastRecent(s: State, r: seq<Item>)
    requires WellFormed(s, r) && r != []
    ensures var t := s.entries[r[0].key].tick;
      t in s.order && s.order[t] == r[0].key && forall t' :: t' in s.order ==> t <= t'
    ensures Without(r, r[0].key) == r[1..]
  {
    var t := s.entries[r[0].key].tick;
    forall t' | t' in s.order ensures t <= t' {
      assert Lists(r, s.order[t']);
      var i :| 0 <= i < |r| && r[i].key == s.order[t'];
      if i > 0 { assert s.entries[r[0].key].tick < s.entries[r[i].key].tick; }
    }
    var i := PlaceOf(s, r, r[0].key);
    assert i == 0;
    WithoutAt(r, 0, r[0].key);
    assert r[..0] + r[1..] == r[1..];
  }

  lemma EmptyTogether(s: State, r: seq<Item>)
    requires WellFormed(s, r)
    ensures r == [] <==> s.order == map[]
    ensures r == [] <==> s.entries == map[]
    ensures r == [] ==> s.bytes == 0
  {
    if r != [] { assert r[0].key in s.entries; }
    if s.order != map[] {
      var t :| t in s.order;
      assert s.order[t] in s.entries;
    }
    if s.entries != map[] {
      var k :| k in s.entries;
      assert s.entries[k].tick in s.order;
    }
  }

  // A cached tile that is read again moves to the end of the list.
  function Touched(s: State, key: Key): State
    requires key in s.entries
  {
    var e := s.entries[key];
    State(s.entries[key := e.(tick := s.nextTick)], (s.order - {e.tick})[s.nextTick := key], s.nextTick + 1, s.bytes)
  }

  lemma TouchKeeps(s: State, r: seq<Item>, key: Key)
    requires WellFormed(s, r) && key in s.entries
    ensures WellFormed(Touched(s, key), Without(r, key) + [Item(key, s.entries[key].tile)])
  {
    RemoveKeeps(s, r, key);
    PushKeeps(Removed(s, key), Without(r, key), key, s.entries[key].tile);
    TouchIsRemoveAndPush(s, key);
  }

  lemma TouchIsRemoveAndPush(s: State, key: Key)
    requires TwoMaps(s) && key in s.entries && s.entries[key].size <= s.bytes
    ensures Touched(s, key) == Pushed(Removed(s, key), key, s.entries[key].tile)
  {
    var e := s.entries[key];
    assert s.entries[key := e.(tick := s.nextTick)] == (s.entries - {key})[key := Entry(e.tile, e.size, s.nextTick)];
  }

  // One round of eviction: the entry with the smallest tick goes.
  lemma EvictKeeps(s: State, r: seq<Item>, first: nat)
    requires WellFormed(s, r) && first in s.order && forall t :: t in s.order ==> first <= t
    ensures r != [] && s.order[first] == r[0].key && r[0].key in s.entries
    ensures s.entries[r[0].key].size <= s.bytes && s.entries[r[0].key].tick == first
    ensures WellFormed(Removed(s, r[0].key), r[1..])
  {
    EmptyTogether(s, r);
    FirstIsLeastRecent(s, r);
    RemoveKeeps(s, r, r[0].key);
  }

  lemma SmallestTick(s: State, r: seq<Item>)
    requires WellFormed(s, r) && r != []
    ensures exists first :: first in s.order && forall t :: t in s.order ==> first <= t
  {
    FirstIsLeastRecent(s, r);
  }

  // While something has to go, something is there to go.
  lemma OverBudget(s: State, r: seq<Item>, budget: nat)
    requires WellFormed(s, r) && s.bytes > budget
    ensures r != [] && s.order != map[] && Fit(r, budget) == Fit(r[1..], budget)
  {
    EmptyTogether(s, r);
  }

  lemma WithinBudget(s: State, r: seq<Item>, budget: nat)
    requires WellFormed(s, r) && s.bytes <= budget
    ensures Fit(r, budget) == r
  {}

  function ContentOf(entries: map<Key, Entry>): map<Key, CachedTile> {
    map k | k in entries :: entries[k].tile
  }

  lemma ContentMinus(entries: map<Key, Entry>, keys: set<Key>)
    ensures ContentOf(entries - keys) == ContentOf(entries) - keys
  {}

  // ------------------------------------------------------------- the budget

  // What a cached tile takes: 160 bytes, and the bytes of its data and ETag.
  function Weight(tile: CachedTile): nat {
    match tile
    case Empty => 160
    case Tile(data, etag) => 160 + |data| + |etag|
  }

  // What some cached tiles take together.
  ghost function Held(content: map<Key, CachedTile>): nat
    decreases |content|
  {
    if content == map[] then 0
    else
      SomeCached(content);
      var k :| k in content;
      OneLess(content, k);
      Weight(content[k]) + Held(content - {k})
  }

  lemma SomeCached(content: map<Key, CachedTile>)
    ensures content == map[] || exists k :: k in content
  {
    if forall k :: k !in content { assert content == map[]; }
  }

  lemma OneLess(content: map<Key, CachedTile>, k: Key)
    requires k in content
    ensures |content - {k}| == |content| - 1
  {
    assert content == (content - {k})[k := content[k]];
  }

  // Whichever tile is counted first.
  lemma {:induction false} HeldWithout(content: map<Key, CachedTile>, k: Key)
    requires k in content
    ensures Held(content) == Weight(content[k]) + Held(content - {k})
    decreases |content|
  {
    hide Weight;
    var first :| first in content && Held(content) == Weight(content[first]) + Held(content - {first});
    if first != k {
      OneLess(content, first);
      OneLess(content, k);
      HeldWithout(content - {first}, k);
      HeldWithout(content - {k}, first);
      assert content - {first} - {k} == content - {k} - {first};
    }
  }

  lemma {:induction false} HeldIsTotal(entries: map<Key, Entry>, r: seq<Item>)
    requires Mirrors(entries, r)
    ensures Held(ContentOf(entries)) == Total(r)
    decreases |r|
  {
    if r == [] {
      NothingListed(entries);
    } else {
      var k := r[0].key;
      TailMirrors(entries, r);
      HeldIsTotal(entries - {k}, r[1..]);
      hide Mirrors;
      HeldWithout(ContentOf(entries), k);
      ContentMinus(entries, {k});
    }
  }

  lemma NothingListed(entries: map<Key, Entry>)
    requires Mirrors(entries, [])
    ensures ContentOf(entries) == map[]
  {
    forall k ensures k !in entries { assert !Lists([], k); }
  }

  lemma TailMirrors(entries: map<Key, Entry>, r: seq<Item>)
    requires Mirrors(entries, r) && r != []
    ensures r[0].key in entries && entries[r[0].key].tile == r[0].tile && Mirrors(entries - {r[0].key}, r[1..])
  {
    var rest := entries - {r[0].key};
    forall i | 0 <= i < |r| - 1 ensures r[1..][i].key in rest {
      assert entries[r[0].key].tick < entries[r[i + 1].key].tick;
    }
    forall k | k in rest ensures Lists(r[1..], k) {
      assert Lists(r, k);
      var i :| 0 <= i < |r| && r[i].key == k;
      assert r[1..][i - 1].key == k;
    }
  }

  // ------------------------------------------------------------- the cache

  class TileCache {
    const maxBytes: nat
    var entries: map<Key, Entry>
    var order: map<nat, Key>
    var nextTick: nat
    var bytes: nat
    var sources: map<string, nat>

    // The same tiles as a list, least recently used first.
    ghost var recency: seq<Item>

    ghost predicate Valid()
      reads this
    {
      WellFormed(State(entries, order, nextTick, bytes), recency) && bytes <= maxBytes
    }

    ghost function AsView(): View
      reads this
    {
      View(ContentOf(entries), sources)
    }

    // In every state what is cached stays within the budget.
    lemma WithinBytes()
      requires Valid()
      ensures Held(AsView().content) <= maxBytes && bytes == Held(AsView().content)
    {
      HeldIsTotal(entries, recency);
    }

    constructor (maxBytes: nat)
      ensures Valid() && recency == [] && this.maxBytes == maxBytes
      ensures AsView() == View(map[], map[])
    {
      this.maxBytes := maxBytes;
      entries, order, nextTick, bytes, sources := map[], map[], 0, 0, map[];
      recency := [];
    }

    function Generation(source: string): nat
      reads this
    {
      Gen(sources, source)
    }

    method Intern(source: string)
      modifies this`sources
      ensures SameGens(old(sources), sources)
    {
      if source !in sources { sources := sources[source := 0]; }
    }

    method BumpGeneration(source: string)
      modifies this`sources
      ensures Bumped(old(sources), sources, source)
    {
      sources := sources[source := Generation(source) + 1];
    }

    method Remove(key: Key) returns (present: bool)
      requires Valid()
      modifies this`entries, this`order, this`bytes, this`recency
      ensures Valid() && bytes <= old(bytes)
      ensures present == (key in old(entries))
      ensures recency == Without(old(recency), key)
      ensures entries == old(entries) - {key}
    {
      hide WellFormed;
      present := key in entries;
      ghost var s := State(entries, order, nextTick, bytes);
      if present {
        RemoveKeeps(s, recency, key);
        var entry := entries[key];
        entries := entries - {key};
        order := order - {entry.tick};
        bytes := bytes - entry.size;
        recency := Without(recency, key);
      } else {
        AbsentKeeps(s, recency, key);
        assert entries - {key} == entries;
      }
    }

    // File a tile under a fresh tick, as the most recently used.
    method Push(key: Key, tile: CachedTile)
      requires Valid() && key !in entries && bytes + Size(tile) <= maxBytes
      modifies this`entries, this`order, this`nextTick, this`bytes, this`recency
      ensures Valid() && recency == old(recency) + [Item(key, tile)]
      ensures entries.Keys == old(entries).Keys + {key} && entries[key].tile == tile
      ensures forall k :: k in old(entries) ==> entries[k] == old(entries)[k]
    {
      hide WellFormed;
      PushKeeps(State(entries, order, nextTick, bytes), recency, key, tile);
      var tick := nextTick;
      nextTick := nextTick + 1;
      order := order[tick := key];
      entries := entries[key := Entry(tile, Size(tile), tick)];
      bytes := bytes + Size(tile);
      recency := recency + [Item(key, tile)];
    }

    // `lookup`. Whether an entry has outlived its time is up to the clock.
    method Find(key: Key, outlived: bool) returns (r: Lookup)
      requires Valid()
      modifies this
      ensures Valid() && LookedUp(old(AsView()), AsView(), key, r)
      ensures r.Hit? <==> key in old(entries) && !outlived
      ensures recency == Without(old(recency), key) + (if r.Hit? then [Item(key, r.tile)] else [])
    {
      hide WellFormed, Without, ContentOf;
      Intern(key.source);
      if key in entries && !outlived {
        ghost var s := State(entries, order, nextTick, bytes);
        TouchKeeps(s, recency, key);
        var entry := entries[key];
        var tick := nextTick;
        nextTick := nextTick + 1;
        entries := entries[key := entry.(tick := tick)];
        order := (order - {entry.tick})[tick := key];
        recency := Without(recency, key) + [Item(key, entry.tile)];
        assert State(entries, order, nextTick, bytes) == Touched(s, key);
        TouchedContent(s.entries, key, tick);
        r := Hit(entry.tile);
      } else {
        ContentMinus(entries, {key});
        var present := Remove(key);
        r := Miss(Generation(key.source));
      }
    }

    // `pop_first` on the access order, and the entry with it.
    method PopFirst()
      requires Valid() && recency != []
      modifies this`entries, this`order, this`bytes, this`recency
      ensures Valid() && bytes <= old(bytes) && recency == old(recency)[1..]
      ensures entries == old(entries) - {old(recency)[0].key}
    {
      hide WellFormed;
      ghost var s := State(entries, order, nextTick, bytes);
      SmallestTick(s, recency);
      var first := LeastTick(order);
      EvictKeeps(s, recency, first);
      var lru := order[first];
      order := order - {first};
      if lru in entries {
        bytes := bytes - entries[lru].size;
        entries := entries - {lru};
      }
      recency := recency[1..];
    }

    // The eviction loop of `insert`: `break` on an empty order is never taken.
    method Evict(size: nat)
      requires Valid() && size <= maxBytes
      modifies this`entries, this`order, this`bytes, this`recency
      ensures Valid() && bytes + size <= maxBytes && Held(AsView().content) + size <= maxBytes
      ensures recency == Fit(old(recency), maxBytes - size)
      ensures forall k :: k in entries ==> k in old(entries) && entries[k] == old(entries)[k]
    {
      hide WellFormed, Fit, Held;
      ghost var budget := maxBytes - size;
      while bytes + size > maxBytes
        invariant Valid()
        invariant Fit(recency, budget) == Fit(old(recency), budget)
        invariant entries.Keys <= old(entries).Keys
        invariant forall k :: k in entries ==> entries[k] == old(entries)[k]
        decreases |recency|
      {
        ghost var s := State(entries, order, nextTick, bytes);
        OverBudget(s, recency, budget);
        if order == map[] {
          assert false;
          break;
        }
        PopFirst();
      }
      WithinBudget(State(entries, order, nextTick, bytes), recency, budget);
      WithinBytes();
    }

    // `insert`
    method Insert(key: Key, tile: CachedTile, generation: nat) returns (stored: bool)
      requires Valid()
      modifies this
      ensures Valid() && Inserted(old(AsView()), AsView(), key, tile, generation, stored)
      ensures stored <==> (generation == old(Generation(key.source)) &&
        160 + (if tile.Tile? then |tile.data| + |tile.etag| else 0) <= maxBytes)
      ensures recency == if stored then Fit(Without(old(recency), key), maxBytes - Size(tile)) + [Item(key, tile)] else old(recency)
    {
      hide WellFormed, Fit, Without;
      var size := Size(tile);
      if size > maxBytes { return false; }
      if Generation(key.source) != generation { return false; }
      Intern(key.source);
      var was := Remove(key);
      Evict(size);
      Push(key, tile);
      stored := true;
    }

    // One of the tiles an invalidation lists.
    method RemoveListed(key: Key) returns (present: bool)
      requires Valid()
      modifies this
      ensures Valid() && SameGens(old(sources), sources)
      ensures entries == old(entries) - {key} && recency == Without(old(recency), key)
      ensures |old(entries)| - |entries| == if present then 1 else 0
    {
      hide WellFormed, Without;
      Intern(key.source);
      RemovedOne(entries, key);
      present := Remove(key);
    }

    // `invalidate`: bump the generation, then drop exactly the given tiles.
    method Invalidate(source: string, keys: seq<Key>) returns (removed: nat)
      requires Valid()
      modifies this
      ensures Valid() && Invalidated(old(AsView()), AsView(), source, SetOf(keys))
      ensures recency == WithoutAll(old(recency), keys)
      ensures removed == |old(entries)| - |entries|
    {
      hide WellFormed, Without, WithoutAll, ContentOf, SetOf, Bumped, SameGens;
      BumpGeneration(source);
      NoKeys(old(recency));
      removed := 0;
      ghost var dropped: set<Key> := {};
      for i := 0 to |keys|
        invariant Valid()
        invariant Bumped(old(sources), sources, source)
        invariant dropped == SetOf(keys[..i])
        invariant entries == old(entries) - dropped
        invariant recency == WithoutAll(old(recency), keys[..i])
        invariant removed == |old(entries)| - |entries|
      {
        SetOfSnoc(keys, i, old(recency));
        ghost var before := sources;
        MinusBoth(old(entries), dropped, keys[i]);
        var present := RemoveListed(keys[i]);
        BumpedThenSame(old(sources), before, sources, source);
        if present { removed := removed + 1; }
        dropped := dropped + {keys[i]};
      }
      assert keys[..|keys|] == keys;
      ContentMinus(old(entries), dropped);
    }

    // Drops a source's entries one by one.
    method DropAll(keys: set<Key>, ghost source: string)
      requires Valid() && keys <= entries.Keys && forall k :: k in keys ==> k.source == source
      modifies this`entries, this`order, this`bytes, this`recency
      ensures Valid() && entries == old(entries) - keys
      ensures WithoutSource(recency, source) == WithoutSource(old(recency), source)
      ensures |old(entries)| == |entries| + |keys|
    {
      hide *;
      var rest := keys;
      NoneDropped(entries, keys);
      while rest != {}
        invariant Valid() && rest <= keys
        invariant entries == AfterDrop(old(entries), keys, rest)
        invariant WithoutSource(recency, source) == WithoutSource(old(recency), source)
        invariant |old(entries)| == |entries| + |keys| - |rest|
        decreases |rest|
      {
        var key := SomeKey(rest);
        DropOne(old(entries), keys, rest, key);
        WithoutSourceSkips(recency, key, source);
        var present := Remove(key);
        rest := rest - {key};
      }
      AllDropped(old(entries), keys);
    }

    // `clear_source`
    method ClearSource(source: string) returns (removed: nat)
      requires Valid()
      modifies this
      ensures Valid() && Cleared(old(AsView()), AsView(), source)
      ensures recency == WithoutSource(old(recency), source)
      ensures removed == |old(entries)| - |entries|
    {
      hide WellFormed, WithoutSource, ContentOf, OtherSources, Bumped;
      BumpGeneration(source);
      var keys := set k | k in entries && k.source == source;
      removed := |keys|;
      DropAll(keys, source);
      NoneOfSource(State(entries, order, nextTick, bytes), recency, source);
      ContentOfOthers(old(entries), keys, source);
    }
  }

  function AfterDrop(m: map<Key, Entry>, keys: set<Key>, rest: set<Key>): map<Key, Entry> {
    m - (keys - rest)
  }

  lemma NoneDropped(m: map<Key, Entry>, keys: set<Key>)
    ensures AfterDrop(m, keys, keys) == m
  {}

  lemma AllDropped(m: map<Key, Entry>, keys: set<Key>)
    ensures AfterDrop(m, keys, {}) == m - keys
  {}

  lemma DropOne(m: map<Key, Entry>, keys: set<Key>, rest: set<Key>, key: Key)
    requires key in rest && rest <= keys <= m.Keys
    ensures AfterDrop(m, keys, rest) - {key} == AfterDrop(m, keys, rest - {key})
    ensures |AfterDrop(m, keys, rest) - {key}| == |AfterDrop(m, keys, rest)| - 1
    ensures |rest - {key}| == |rest| - 1
  {
    RemovedOne(AfterDrop(m, keys, rest), key);
  }

  method SomeKey(keys: set<Key>) returns (key: Key)
    requires keys != {}
    ensures key in keys
  {
    key :| key in keys;
  }

  // The first key of an ordered map.
  method LeastTick(order: map<nat, Key>) returns (first: nat)
    requires exists t :: t in order && forall u :: u in order ==> t <= u
    ensures first in order && forall t :: t in order ==> first <= t
  {
    first :| first in order && forall t :: t in order ==> first <= t;
  }

  function SetOf(keys: seq<Key>): set<Key> {
    if keys == [] then {} else SetOf(keys[..|keys| - 1]) + {keys[|keys| - 1]}
  }

  lemma SetOfSnoc(keys: seq<Key>, i: nat, r: seq<Item>)
    requires i < |keys|
    ensures SetOf(keys[..i + 1]) == SetOf(keys[..i]) + {keys[i]}
    ensures WithoutAll(r, keys[..i + 1]) == Without(WithoutAll(r, keys[..i]), keys[i])
  {
    assert keys[..i + 1][..i] == keys[..i];
  }

  lemma TouchedContent(entries: map<Key, Entry>, key: Key, tick: nat)
    requires key in entries
    ensures ContentOf(entries[key := entries[key].(tick := tick)]) == ContentOf(entries)
    ensures key in ContentOf(entries) && ContentOf(entries)[key] == entries[key].tile
  {}

  lemma ContentOfOthers(entries: map<Key, Entry>, keys: set<Key>, source: string)
    requires keys == set k | k in entries && k.source == source
    ensures ContentOf(entries - keys) == OtherSources(ContentOf(entries), source)
  {}

  lemma BumpedThenSame(g: map<string, nat>, g': map<string, nat>, g'': map<string, nat>, source: string)
    requires Bumped(g, g', source) && SameGens(g', g'')
    ensures Bumped(g, g'', source)
  {}

  lemma NoKeys(r: seq<Item>)
    ensures SetOf([]) == {} && WithoutAll(r, []) == r
  {}

  lemma MinusBoth(m: map<Key, Entry>, keys: set<Key>, key: Key)
    ensures m - keys - {key} == m - (keys + {key})
  {}

  lemma RemovedOne(m: map<Key, Entry>, key: Key)
    ensures |m - {key}| == |m| - if key in m then 1 else 0
  {
    if key in m { assert m == (m - {key})[key := m[key]]; } else { assert m - {key} == m; }
  }

  lemma {:induction false} WithoutSourceSkips(r: seq<Item>, key: Key, source: string)
    requires key.source == source
    ensures WithoutSource(Without(r, key), source) == WithoutSource(r, source)
  {
    if r != [] {
      WithoutSourceSkips(r[1..], key, source);
      if r[0].key != key { assert Without(r, key)[1..] == Without(r[1..], key); }
    }
  }

  lemma {:induction false} AllKept(r: seq<Item>, source: string)
    requires forall i :: 0 <= i < |r| ==> r[i].key.source != source
    ensures WithoutSource(r, source) == r
  {
    if r != [] { AllKept(r[1..], source); }
  }

  lemma NoneOfSource(s: State, r: seq<Item>, source: string)
    requires WellFormed(s, r) && forall k :: k in s.entries ==> k.source != source
    ensures WithoutSource(r, source) == r
  {
    AllKept(r, source);
  }
}
