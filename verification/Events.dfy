// Change events, their areas, and merging them (src/events.rs).

module Events {
  import opened Options
  import opened Sorting
  import opened Tiles

  // Where an update changed something, and the zooms its layer is encoded at.
  datatype ChangedArea = ChangedArea(box: Bounds, minZoom: nat, maxZoom: nat)

  predicate Covers(a: ChangedArea, b: ChangedArea) {
    BoxIn(b.box, a.box) && a.minZoom <= b.minZoom && b.maxZoom <= a.maxZoom
  }

  function Min(a: nat, b: nat): nat { if a < b then a else b }

  function Max(a: nat, b: nat): nat { if a > b then a else b }

  function Union(a: ChangedArea, b: ChangedArea): ChangedArea {
    ChangedArea(UnionBounds(a.box, b.box), Min(a.minZoom, b.minZoom), Max(a.maxZoom, b.maxZoom))
  }

  // The least area covering both.
  lemma UnionIsLeast(a: ChangedArea, b: ChangedArea, c: ChangedArea)
    ensures Covers(c, Union(a, b)) <==> Covers(c, a) && Covers(c, b)
  {}

  // ------------------------------------------------------------- compaction

  const MAX_CHANGED_AREAS: nat := 64

  // Lexicographic: the box's numbers, then the zooms.
  predicate AreaBefore(a: ChangedArea, b: ChangedArea) {
    if a.box.minLon != b.box.minLon then a.box.minLon < b.box.minLon
    else if a.box.minLat != b.box.minLat then a.box.minLat < b.box.minLat
    else if a.box.maxLon != b.box.maxLon then a.box.maxLon < b.box.maxLon
    else if a.box.maxLat != b.box.maxLat then a.box.maxLat < b.box.maxLat
    else if a.minZoom != b.minZoom then a.minZoom < b.minZoom
    else a.maxZoom < b.maxZoom
  }

  lemma AreasAreOrdered()
    ensures Orders(AreaBefore)
  {}

  predicate SameZooms(a: ChangedArea, b: ChangedArea) {
    a.minZoom == b.minZoom && a.maxZoom == b.maxZoom
  }

  // Adds an area to the first one with its zoom range, or to the end.
  function AddByZoom(byZoom: seq<ChangedArea>, area: ChangedArea): seq<ChangedArea> {
    if byZoom == [] then [area]
    else if SameZooms(byZoom[0], area) then [Union(byZoom[0], area)] + byZoom[1..]
    else [byZoom[0]] + AddByZoom(byZoom[1..], area)
  }

  function ByZoom(areas: seq<ChangedArea>): seq<ChangedArea> {
    if areas == [] then [] else AddByZoom(ByZoom(areas[..|areas| - 1]), areas[|areas| - 1])
  }

  function UniteAll(areas: seq<ChangedArea>): ChangedArea
    requires areas != []
  {
    if |areas| == 1 then areas[0] else Union(UniteAll(areas[..|areas| - 1]), areas[|areas| - 1])
  }

  function Compact(areas: seq<ChangedArea>): seq<ChangedArea> {
    var distinct := Dedup(Sort(AreaBefore, areas));
    if |distinct| <= MAX_CHANGED_AREAS then distinct
    else
      var byZoom := ByZoom(distinct);
      if |byZoom| > MAX_CHANGED_AREAS then [UniteAll(byZoom)] else byZoom
  }

  // `compact_areas`
  method CompactAreas(areas: seq<ChangedArea>) returns (out: seq<ChangedArea>)
    ensures out == Compact(areas) && IsCompaction(areas, out)
  {
    CompactMeaning(areas);
    hide IsCompaction;
    out := Dedup(Sort(AreaBefore, areas));
    if |out| <= MAX_CHANGED_AREAS { return; }
    hide Sort, Dedup, ByZoom, UniteAll, Union, AddByZoom;
    ByZoomOfNone(out);
    var byZoom := [];
    var i := 0;
    while i < |out|
      invariant 0 <= i <= |out|
      invariant byZoom == ByZoom(out[..i])
    {
      ByZoomNext(out, i);
      byZoom := MergeByZoom(byZoom, out[i]);
      i := i + 1;
    }
    assert out[..|out|] == out;
    if |byZoom| > MAX_CHANGED_AREAS {
      var all := byZoom[0];
      UniteOne(byZoom);
      i := 1;
      while i < |byZoom|
        invariant 1 <= i <= |byZoom|
        invariant all == UniteAll(byZoom[..i])
      {
        UniteNext(byZoom, i);
        all := Union(all, byZoom[i]);
        i := i + 1;
      }
      assert byZoom[..|byZoom|] == byZoom;
      byZoom := [all];
    }
    out := byZoom;
  }

  method MergeByZoom(before: seq<ChangedArea>, area: ChangedArea) returns (byZoom: seq<ChangedArea>)
    ensures byZoom == AddByZoom(before, area)
  {
    var i := 0;
    while i < |before| && !SameZooms(before[i], area)
      invariant 0 <= i <= |before|
      invariant AddByZoom(before, area) == Skipped(before, area, i)
    {
      SkipOne(before, area, i);
      i := i + 1;
    }
    if i < |before| {
      MergeHere(before, area, i);
      byZoom := before[i := Union(before[i], area)];
    } else {
      byZoom := before + [area];
    }
  }

  // Adding by zoom, past areas that do not match.
  function Skipped(before: seq<ChangedArea>, area: ChangedArea, i: nat): seq<ChangedArea>
    requires i <= |before|
  {
    before[..i] + AddByZoom(before[i..], area)
  }

  lemma SkipOne(before: seq<ChangedArea>, area: ChangedArea, i: nat)
    requires i < |before| && !SameZooms(before[i], area)
    ensures Skipped(before, area, i) == Skipped(before, area, i + 1)
  {
    hide SameZooms;
    assert before[i..][1..] == before[i + 1..];
    assert before[..i + 1] == before[..i] + [before[i]];
  }

  lemma MergeHere(before: seq<ChangedArea>, area: ChangedArea, i: nat)
    requires i < |before| && SameZooms(before[i], area)
    ensures Skipped(before, area, i) == before[i := Union(before[i], area)]
  {
    hide SameZooms, Union;
    assert before[i..][1..] == before[i + 1..];
  }

  lemma ByZoomOfNone(areas: seq<ChangedArea>)
    ensures ByZoom(areas[..0]) == []
  {}

  lemma ByZoomNext(areas: seq<ChangedArea>, i: nat)
    requires i < |areas|
    ensures ByZoom(areas[..i + 1]) == AddByZoom(ByZoom(areas[..i]), areas[i])
  {
    hide AddByZoom;
    assert areas[..i + 1][..i] == areas[..i];
  }

  lemma UniteOne(areas: seq<ChangedArea>)
    requires areas != []
    ensures UniteAll(areas[..1]) == areas[0]
  {}

  lemma UniteNext(areas: seq<ChangedArea>, i: nat)
    requires 1 <= i < |areas|
    ensures UniteAll(areas[..i + 1]) == Union(UniteAll(areas[..i]), areas[i])
  {
    hide Union;
    assert areas[..i + 1][..i] == areas[..i];
  }

  // ------------------------------------------------------------- what compaction keeps

  ghost predicate SomeCovers(areas: seq<ChangedArea>, a: ChangedArea) {
    exists o :: o in areas && Covers(o, a)
  }

  // An area covering all of these.
  ghost predicate CoversAll(c: ChangedArea, areas: seq<ChangedArea>) {
    forall a :: a in areas ==> Covers(c, a)
  }

  lemma {:induction false} AddByZoomCovers(byZoom: seq<ChangedArea>, area: ChangedArea, a: ChangedArea)
    requires a == area || SomeCovers(byZoom, a)
    ensures SomeCovers(AddByZoom(byZoom, area), a)
  {
    if byZoom == [] {
      assert area in AddByZoom(byZoom, area);
    } else if SameZooms(byZoom[0], area) {
      var u := Union(byZoom[0], area);
      assert u in AddByZoom(byZoom, area);
      if a != area {
        var o :| o in byZoom && Covers(o, a);
        assert o == byZoom[0] || o in byZoom[1..];
        assert o == byZoom[0] || o in AddByZoom(byZoom, area);
      }
    } else if a == area || SomeCovers(byZoom[1..], a) {
      AddByZoomCovers(byZoom[1..], area, a);
      var o :| o in AddByZoom(byZoom[1..], area) && Covers(o, a);
      assert o in AddByZoom(byZoom, area);
    } else {
      assert byZoom == [byZoom[0]] + byZoom[1..];
      var o :| o in byZoom && Covers(o, a);
      assert o in AddByZoom(byZoom, area);
    }
  }

  lemma {:induction false} AddByZoomIsTight(byZoom: seq<ChangedArea>, area: ChangedArea, c: ChangedArea)
    requires CoversAll(c, byZoom) && Covers(c, area)
    ensures CoversAll(c, AddByZoom(byZoom, area))
  {
    if byZoom != [] {
      if SameZooms(byZoom[0], area) { UnionIsLeast(byZoom[0], area, c); }
      else { AddByZoomIsTight(byZoom[1..], area, c); }
    }
  }

  lemma {:induction false} ByZoomCovers(areas: seq<ChangedArea>, a: ChangedArea)
    requires a in areas
    ensures SomeCovers(ByZoom(areas), a)
  {
    var before, last := areas[..|areas| - 1], areas[|areas| - 1];
    if a != last { ByZoomCovers(before, a); }
    AddByZoomCovers(ByZoom(before), last, a);
  }

  lemma {:induction false} ByZoomIsTight(areas: seq<ChangedArea>, c: ChangedArea)
    requires CoversAll(c, areas)
    ensures CoversAll(c, ByZoom(areas))
  {
    if areas != [] {
      ByZoomIsTight(areas[..|areas| - 1], c);
      AddByZoomIsTight(ByZoom(areas[..|areas| - 1]), areas[|areas| - 1], c);
    }
  }

  lemma {:induction false} UniteAllIsLeast(areas: seq<ChangedArea>, c: ChangedArea)
    requires areas != []
    ensures Covers(c, UniteAll(areas)) <==> CoversAll(c, areas)
  {
    if |areas| > 1 {
      var before, last := areas[..|areas| - 1], areas[|areas| - 1];
      UniteAllIsLeast(before, c);
      UnionIsLeast(UniteAll(before), last, c);
      assert areas == before + [last];
    }
  }

  lemma CoversIsTransitive(a: ChangedArea, b: ChangedArea, c: ChangedArea)
    requires Covers(a, b) && Covers(b, c)
    ensures Covers(a, c)
  {}

  lemma AddByZoomNotEmpty(byZoom: seq<ChangedArea>, area: ChangedArea)
    ensures AddByZoom(byZoom, area) != []
  {}

  lemma DistinctAreas(areas: seq<ChangedArea>)
    ensures var d := Dedup(Sort(AreaBefore, areas));
      (forall u :: u in d <==> u in areas) && |d| == |set u | u in areas| && (d == [] <==> areas == [])
  {
    AreasAreOrdered();
    SortDedup(AreaBefore, areas);
    var d := Dedup(Sort(AreaBefore, areas));
    if d != [] { assert d[0] in d; }
    if areas != [] { assert areas[0] in areas; }
  }

  // At most 64 areas, none only for none, and exactly the given ones while those
  // are at most 64.
  lemma CompactIsBounded(areas: seq<ChangedArea>)
    ensures |Compact(areas)| <= MAX_CHANGED_AREAS
    ensures Compact(areas) == [] <==> areas == []
    ensures |set u | u in areas| <= MAX_CHANGED_AREAS ==> forall u :: u in Compact(areas) <==> u in areas
  {
    DistinctAreas(areas);
    var d := Dedup(Sort(AreaBefore, areas));
    if |d| > MAX_CHANGED_AREAS { AddByZoomNotEmpty(ByZoom(d[..|d| - 1]), d[|d| - 1]); }
  }

  // Every given area is covered ...
  lemma CompactCovers(areas: seq<ChangedArea>, a: ChangedArea)
    requires a in areas
    ensures SomeCovers(Compact(areas), a)
  {
    hide Covers, Sort, Dedup, ByZoom;
    DistinctAreas(areas);
    var d := Dedup(Sort(AreaBefore, areas));
    assert Covers(a, a) by { CoversItself(a); }
    if |d| > MAX_CHANGED_AREAS {
      ByZoomCovers(d, a);
      var o :| o in ByZoom(d) && Covers(o, a);
      if |ByZoom(d)| > MAX_CHANGED_AREAS {
        var all := UniteAll(ByZoom(d));
        assert Covers(all, all) by { CoversItself(all); }
        UniteAllIsLeast(ByZoom(d), all);
        CoversIsTransitive(all, o, a);
        assert all in Compact(areas);
      }
    }
  }

  lemma CoversItself(a: ChangedArea)
    ensures Covers(a, a)
  {}

  // ... and nothing beyond the area around all of them.
  lemma CompactIsTight(areas: seq<ChangedArea>, c: ChangedArea)
    requires CoversAll(c, areas)
    ensures CoversAll(c, Compact(areas))
  {
    hide Covers, Sort, Dedup, ByZoom;
    DistinctAreas(areas);
    var d := Dedup(Sort(AreaBefore, areas));
    ByZoomIsTight(d, c);
    if |ByZoom(d)| > 0 { UniteAllIsLeast(ByZoom(d), c); }
  }

  // ------------------------------------------------------------- exactly what it gives

  // The least box around the areas of one zoom range.
  ghost predicate LeastOfRange(o: ChangedArea, areas: seq<ChangedArea>) {
    && (exists a :: a in areas && SameZooms(a, o))
    && forall b: Bounds {:trigger BoxIn(o.box, b)} :: BoxIn(o.box, b) <==> forall a :: a in areas && SameZooms(a, o) ==> BoxIn(a.box, b)
  }

  // One area for every zoom range.
  ghost predicate OnePerRange(areas: seq<ChangedArea>, out: seq<ChangedArea>) {
    && (forall i, j :: 0 <= i < j < |out| ==> !SameZooms(out[i], out[j]))
    && (forall a :: a in areas ==> exists o :: o in out && SameZooms(o, a))
    && (forall o :: o in out ==> LeastOfRange(o, areas))
  }

  function ZoomRanges(areas: seq<ChangedArea>): set<(nat, nat)> {
    set a | a in areas :: (a.minZoom, a.maxZoom)
  }

  // Up to 64 different areas are kept; else up to 64 zoom ranges, an area each; else
  // there is one area, the least around all.
  ghost predicate IsCompaction(areas: seq<ChangedArea>, out: seq<ChangedArea>) {
    if |set a | a in areas| <= 64 then
      (forall a :: a in out <==> a in areas) && |out| == |set a | a in areas|
    else if |ZoomRanges(areas)| <= 64 then OnePerRange(areas, out)
    else |out| == 1 && forall c :: Covers(c, out[0]) <==> CoversAll(c, areas)
  }

  lemma {:induction false} AddedWhere(byZoom: seq<ChangedArea>, area: ChangedArea) returns (i: nat)
    ensures i <= |byZoom| && forall j :: 0 <= j < i ==> !SameZooms(byZoom[j], area)
    ensures i < |byZoom| ==> SameZooms(byZoom[i], area) && AddByZoom(byZoom, area) == byZoom[i := Union(byZoom[i], area)]
    ensures i == |byZoom| ==> AddByZoom(byZoom, area) == byZoom + [area]
  {
    hide Union, SameZooms;
    i := 0;
    if byZoom != [] && !SameZooms(byZoom[0], area) {
      var j := AddedWhere(byZoom[1..], area);
      i := j + 1;
      assert byZoom == [byZoom[0]] + byZoom[1..];
    }
  }

  lemma LeastGrows(o: ChangedArea, areas: seq<ChangedArea>, area: ChangedArea)
    requires LeastOfRange(o, areas)
    ensures SameZooms(o, area) ==> LeastOfRange(Union(o, area), areas + [area])
    ensures !SameZooms(o, area) ==> LeastOfRange(o, areas + [area])
  {
    forall a ensures a in areas + [area] <==> a in areas || a == area {}
    var a :| a in areas && SameZooms(a, o);
    assert a in areas + [area];
  }

  lemma LeastOfOne(areas: seq<ChangedArea>, area: ChangedArea)
    requires forall a :: a in areas ==> !SameZooms(a, area)
    ensures LeastOfRange(area, areas + [area])
  {
    forall a ensures a in areas + [area] <==> a in areas || a == area {}
    assert area in areas + [area];
  }

  lemma AddedPerRange(areas: seq<ChangedArea>, byZoom: seq<ChangedArea>, area: ChangedArea)
    requires OnePerRange(areas, byZoom)
    ensures OnePerRange(areas + [area], AddByZoom(byZoom, area))
  {
    var i := AddedWhere(byZoom, area);
    var out, all := AddByZoom(byZoom, area), areas + [area];
    hide AddByZoom, LeastOfRange, Union;
    if i < |byZoom| { UnionZooms(byZoom[i], area); }
    forall a | a in all ensures exists o :: o in out && SameZooms(o, a) {
      if a == area {
        assert out[i] in out;
      } else {
        var o :| o in byZoom && SameZooms(o, a);
        var j :| 0 <= j < |byZoom| && byZoom[j] == o;
        assert out[j] in out;
      }
    }
    forall o | o in out ensures LeastOfRange(o, all) {
      var j :| 0 <= j < |out| && out[j] == o;
      if j < |byZoom| {
        assert byZoom[j] in byZoom;
        LeastGrows(byZoom[j], areas, area);
        if i < |byZoom| && i < j { assert !SameZooms(byZoom[i], byZoom[j]); }
      } else {
        forall a | a in areas ensures !SameZooms(a, area) {
          var o' :| o' in byZoom && SameZooms(o', a);
        }
        LeastOfOne(areas, area);
      }
    }
  }

  lemma UnionZooms(a: ChangedArea, b: ChangedArea)
    requires SameZooms(a, b)
    ensures SameZooms(Union(a, b), a) && SameZooms(Union(a, b), b)
  {}

  lemma {:induction false} ByZoomPerRange(areas: seq<ChangedArea>)
    ensures OnePerRange(areas, ByZoom(areas))
  {
    if areas != [] {
      var init, last := areas[..|areas| - 1], areas[|areas| - 1];
      ByZoomPerRange(init);
      assert areas == init + [last];
      hide AddByZoom;
      AddedPerRange(init, ByZoom(init), last);
    }
  }

  lemma {:induction false} RangesCounted(out: seq<ChangedArea>)
    requires forall i, j :: 0 <= i < j < |out| ==> !SameZooms(out[i], out[j])
    ensures |ZoomRanges(out)| == |out|
  {
    if out != [] {
      var init, last := out[..|out| - 1], out[|out| - 1];
      RangesCounted(init);
      assert out == init + [last];
      assert (last.minZoom, last.maxZoom) !in ZoomRanges(init);
      assert ZoomRanges(out) == ZoomRanges(init) + {(last.minZoom, last.maxZoom)};
    }
  }

  lemma SomeOfRange(o: ChangedArea, areas: seq<ChangedArea>)
    requires LeastOfRange(o, areas)
    ensures exists a :: a in areas && SameZooms(a, o)
  {}

  lemma SameRanges(areas: seq<ChangedArea>, out: seq<ChangedArea>)
    requires OnePerRange(areas, out)
    ensures |out| == |ZoomRanges(areas)|
  {
    hide LeastOfRange, SameZooms, ZoomRanges;
    RangesCounted(out);
    forall o | o in out ensures exists a :: a in areas && SameZooms(a, o) { SomeOfRange(o, areas); }
    RangesWithin(out, areas);
    RangesWithin(areas, out);
    assert ZoomRanges(out) == ZoomRanges(areas);
  }

  lemma RangesWithin(out: seq<ChangedArea>, areas: seq<ChangedArea>)
    requires forall o :: o in out ==> exists a :: a in areas && SameZooms(a, o)
    ensures ZoomRanges(out) <= ZoomRanges(areas)
  {
    forall r | r in ZoomRanges(out) ensures r in ZoomRanges(areas) {
      var o :| o in out && r == (o.minZoom, o.maxZoom);
      var a :| a in areas && SameZooms(a, o);
    }
  }

  // Only which areas there are matters.
  lemma SameAreas(areas: seq<ChangedArea>, other: seq<ChangedArea>, out: seq<ChangedArea>)
    requires forall a :: a in areas <==> a in other
    ensures OnePerRange(areas, out) ==> OnePerRange(other, out)
    ensures ZoomRanges(areas) == ZoomRanges(other)
    ensures forall c :: CoversAll(c, areas) <==> CoversAll(c, other)
  {
    hide SameZooms, LeastOfRange;
    forall o | LeastOfRange(o, areas) ensures LeastOfRange(o, other) { LeastOfSame(o, areas, other); }
  }

  lemma LeastOfSame(o: ChangedArea, areas: seq<ChangedArea>, other: seq<ChangedArea>)
    requires (forall a :: a in areas <==> a in other) && LeastOfRange(o, areas)
    ensures LeastOfRange(o, other)
  {
    hide SameZooms, BoxIn;
    forall b: Bounds ensures BoxIn(o.box, b) <==> forall a :: a in other && SameZooms(a, o) ==> BoxIn(a.box, b) {
      assert BoxIn(o.box, b) <==> forall a :: a in areas && SameZooms(a, o) ==> BoxIn(a.box, b);
    }
  }

  lemma UnitedIsLeast(d: seq<ChangedArea>, c: ChangedArea)
    requires d != [] && ByZoom(d) != []
    ensures Covers(c, UniteAll(ByZoom(d))) <==> CoversAll(c, d)
  {
    hide Covers, UniteAll, ByZoom, CoversAll;
    UniteAllIsLeast(ByZoom(d), c);
    if CoversAll(c, d) { ByZoomIsTight(d, c); }
    if CoversAll(c, ByZoom(d)) { ByZoomCoversAll(d, c); }
  }

  lemma CompactMeaning(areas: seq<ChangedArea>)
    ensures IsCompaction(areas, Compact(areas))
  {
    DistinctAreas(areas);
    var d := Dedup(Sort(AreaBefore, areas));
    hide Sort, Dedup, OnePerRange, ByZoom, Covers, UniteAll;
    if |d| > MAX_CHANGED_AREAS {
      ByZoomPerRange(d);
      SameRanges(d, ByZoom(d));
      SameAreas(d, areas, ByZoom(d));
      if |ByZoom(d)| > MAX_CHANGED_AREAS {
        forall c ensures Covers(c, UniteAll(ByZoom(d))) <==> CoversAll(c, areas) { UnitedIsLeast(d, c); }
      }
    }
  }

  lemma ByZoomCoversAll(areas: seq<ChangedArea>, c: ChangedArea)
    requires CoversAll(c, ByZoom(areas))
    ensures CoversAll(c, areas)
  {
    hide Covers, ByZoom;
    forall a | a in areas ensures Covers(c, a) {
      ByZoomCovers(areas, a);
      var o :| o in ByZoom(areas) && Covers(o, a);
      CoversIsTransitive(c, o, a);
    }
  }

  // ------------------------------------------------------------- events

  datatype TileEvent =
    | GenerateComplete(source: string, durationMs: nat)
    | UpdateComplete(source: string, tilesUpdated: nat, zooms: set<nat>, maxZoom: nat, layers: set<string>,
                     areas: seq<ChangedArea>)   // no areas: anywhere

  // `merge`: updates accumulate, a generation is stronger than any update.
  function Merge(a: TileEvent, b: TileEvent): TileEvent {
    match (a, b)
    case (UpdateComplete(source, tiles, zooms, maxZoom, layers, areas), UpdateComplete(_, tiles', zooms', _, layers', areas')) =>
      UpdateComplete(source, tiles + tiles', zooms + zooms', maxZoom, layers + layers',
        if areas == [] || areas' == [] then [] else Compact(areas + areas'))
    case (UpdateComplete(_, _, _, _, _, _), GenerateComplete(_, _)) => b
    case (GenerateComplete(source, _), GenerateComplete(_, duration)) => GenerateComplete(source, duration)
    case (GenerateComplete(_, _), UpdateComplete(_, _, _, _, _, _)) => a
  }

  function MergeAll(events: seq<TileEvent>): TileEvent
    requires events != []
  {
    if |events| == 1 then events[0] else Merge(MergeAll(events[..|events| - 1]), events[|events| - 1])
  }

  // Whether an event reports an area, exactly or within a larger one.
  ghost predicate Reports(e: TileEvent, a: ChangedArea) {
    e.GenerateComplete? || e.areas == [] || SomeCovers(e.areas, a)
  }

  // Whether the second event tells a client everything the first does.
  ghost predicate Includes(m: TileEvent, e: TileEvent) {
    && m.source == e.source
    && (m.UpdateComplete? ==>
      && e.UpdateComplete? && e.tilesUpdated <= m.tilesUpdated && e.zooms <= m.zooms && e.layers <= m.layers
      && (e.areas == [] ==> m.areas == [])
      && (forall a :: Reports(e, a) ==> Reports(m, a)))
  }

  lemma IncludesItself(e: TileEvent)
    ensures Includes(e, e)
  {}

  lemma IncludesIsTransitive(a: TileEvent, b: TileEvent, c: TileEvent)
    requires Includes(a, b) && Includes(b, c)
    ensures Includes(a, c)
  {}

  lemma MergedAreasReport(a: TileEvent, b: TileEvent, x: ChangedArea)
    requires a.UpdateComplete? && b.UpdateComplete? && (Reports(a, x) || Reports(b, x))
    ensures Reports(Merge(a, b), x)
  {
    hide Compact, Covers;
    if a.areas != [] && b.areas != [] {
      var all := a.areas + b.areas;
      var o :| o in all && Covers(o, x);
      CompactCovers(all, o);
      var c :| c in Compact(all) && Covers(c, o);
      CoversIsTransitive(c, o, x);
    }
  }

  // A merge of two events of one source tells everything either does.
  lemma MergeIncludesBoth(a: TileEvent, b: TileEvent)
    requires a.source == b.source
    ensures Includes(Merge(a, b), a) && Includes(Merge(a, b), b)
  {
    hide Compact, Reports;
    if a.UpdateComplete? && b.UpdateComplete? {
      forall x ensures Reports(a, x) || Reports(b, x) ==> Reports(Merge(a, b), x) {
        if Reports(a, x) || Reports(b, x) { MergedAreasReport(a, b, x); }
      }
      if a.areas != [] && b.areas != [] { CompactIsBounded(a.areas + b.areas); }
    }
  }

  // A merge of two updates: the sum, the unions, the first one's zoom limit, and the
  // compaction of both lists of areas unless one of them means anywhere.
  lemma MergeMeaning(a: TileEvent, b: TileEvent)
    requires a.UpdateComplete? && b.UpdateComplete?
    ensures var m := Merge(a, b);
      && m.UpdateComplete? && m.source == a.source && m.maxZoom == a.maxZoom && m.tilesUpdated == a.tilesUpdated + b.tilesUpdated
      && m.zooms == a.zooms + b.zooms && m.layers == a.layers + b.layers
      && (if a.areas == [] || b.areas == [] then m.areas == [] else IsCompaction(a.areas + b.areas, m.areas))
    ensures forall c :: CoversAll(c, a.areas) && CoversAll(c, b.areas) ==> CoversAll(c, Merge(a, b).areas)
  {
    hide Compact, Covers, IsCompaction;
    CompactMeaning(a.areas + b.areas);
    forall c | CoversAll(c, a.areas) && CoversAll(c, b.areas) ensures CoversAll(c, Merge(a, b).areas) {
      CompactIsTight(a.areas + b.areas, c);
    }
  }

  function TileCount(events: seq<TileEvent>): nat {
    if events == [] then 0
    else TileCount(events[..|events| - 1]) + (var e := events[|events| - 1]; if e.UpdateComplete? then e.tilesUpdated else 0)
  }

  ghost predicate AllOf(events: seq<TileEvent>, source: string) {
    forall e :: e in events ==> e.source == source
  }

  ghost predicate SomeGeneration(events: seq<TileEvent>) {
    exists e :: e in events && e.GenerateComplete?
  }

  function ZoomsOf(events: seq<TileEvent>): set<nat> {
    set e, z | e in events && e.UpdateComplete? && z in e.zooms :: z
  }

  function LayersOf(events: seq<TileEvent>): set<string> {
    set e, l | e in events && e.UpdateComplete? && l in e.layers :: l
  }

  // The sums over a list of events.
  ghost predicate Sums(events: seq<TileEvent>, m: TileEvent) {
    && (m.GenerateComplete? <==> SomeGeneration(events))
    && (m.UpdateComplete? ==> m.tilesUpdated == TileCount(events) && m.zooms == ZoomsOf(events) && m.layers == LayersOf(events))
  }

  lemma SumsOfOne(e: TileEvent)
    ensures Sums([e], e)
  {
    assert [e][..0] == [];
    assert e in [e];
  }

  lemma MembersSnoc(before: seq<TileEvent>, last: TileEvent, e: TileEvent)
    ensures e in before + [last] <==> e in before || e == last
  {}

  lemma SumsSnoc(before: seq<TileEvent>, last: TileEvent)
    ensures var events := before + [last];
      && (SomeGeneration(events) <==> SomeGeneration(before) || last.GenerateComplete?)
      && TileCount(events) == TileCount(before) + (if last.UpdateComplete? then last.tilesUpdated else 0)
      && ZoomsOf(events) == ZoomsOf(before) + (if last.UpdateComplete? then last.zooms else {})
      && LayersOf(events) == LayersOf(before) + (if last.UpdateComplete? then last.layers else {})
  {
    var events := before + [last];
    assert events[..|events| - 1] == before;
    forall e ensures e in events <==> e in before || e == last { MembersSnoc(before, last, e); }
    assert last in events;
  }

  lemma MergeSums(a: TileEvent, b: TileEvent)
    ensures var m := Merge(a, b);
      && (m.GenerateComplete? <==> a.GenerateComplete? || b.GenerateComplete?)
      && (m.UpdateComplete? ==> m.tilesUpdated == a.tilesUpdated + b.tilesUpdated && m.zooms == a.zooms + b.zooms && m.layers == a.layers + b.layers)
      && (a.source == b.source ==> m.source == a.source)
  {
    hide Compact;
  }

  // A fold is a generation exactly when one of its events is, else it sums the
  // tiles and unites the zooms and layers.
  lemma {:induction false} FoldedEvents(events: seq<TileEvent>)
    requires events != []
    ensures Sums(events, MergeAll(events))
  {
    var before, last := events[..|events| - 1], events[|events| - 1];
    assert events == before + [last];
    if |events| == 1 {
      assert events == [last];
      SumsOfOne(last);
    } else {
      hide SomeGeneration, TileCount, ZoomsOf, LayersOf, Merge;
      FoldedEvents(before);
      SumsSnoc(before, last);
      MergeSums(MergeAll(before), last);
    }
  }

  lemma {:induction false} FoldSource(events: seq<TileEvent>, source: string)
    requires events != [] && AllOf(events, source)
    ensures MergeAll(events).source == source
  {
    hide Merge;
    var before, last := events[..|events| - 1], events[|events| - 1];
    assert last in events;
    if |events| > 1 {
      forall e | e in before ensures e in events {}
      FoldSource(before, source);
      MergeSums(MergeAll(before), last);
    }
  }

  // What a fold carries over from its events.
  ghost predicate PartsKept(events: seq<TileEvent>, m: TileEvent) {
    && events != []
    && (m.GenerateComplete? ==> LastGeneration(events) == Some(m.durationMs))
    && (m.UpdateComplete? ==> LastGeneration(events) == None && events[0].UpdateComplete? && m.maxZoom == events[0].maxZoom)
    && (m.UpdateComplete? ==> (m.areas == [] <==> SomeAnywhere(events)))
  }

  // A folded generation carries the latest duration, a folded update the first
  // event's zoom limit and no areas exactly when one of them had none.
  lemma {:induction false} FoldedParts(events: seq<TileEvent>)
    requires events != []
    ensures PartsKept(events, MergeAll(events))
  {
    var before, last := events[..|events| - 1], events[|events| - 1];
    if |events| == 1 {
      assert events == [last];
      SinglePart(last);
    } else {
      hide PartsKept, Merge;
      FoldedParts(before);
      PartsSnoc(before, last, MergeAll(before));
      assert events == before + [last];
    }
  }

  lemma SinglePart(e: TileEvent)
    ensures PartsKept([e], e)
  {
    assert [e][..0] == [];
    AnywhereLast([], e);
    assert [] + [e] == [e];
  }

  lemma PartsSnoc(before: seq<TileEvent>, last: TileEvent, m: TileEvent)
    requires PartsKept(before, m)
    ensures PartsKept(before + [last], Merge(m, last))
  {
    MergedParts(m, last);
    AnywhereLast(before, last);
    assert (before + [last])[..|before|] == before;
    hide Merge, SomeAnywhere;
  }

  // Whether some event may have changed anything.
  ghost predicate SomeAnywhere(events: seq<TileEvent>) {
    exists e :: e in events && e.UpdateComplete? && e.areas == []
  }

  lemma AnywhereLast(before: seq<TileEvent>, last: TileEvent)
    ensures SomeAnywhere(before + [last]) <==> SomeAnywhere(before) || (last.UpdateComplete? && last.areas == [])
  {
    if SomeAnywhere(before) {
      var e :| e in before && e.UpdateComplete? && e.areas == [];
      assert e in before + [last];
    }
    assert last in before + [last];
  }

  lemma MergedParts(a: TileEvent, b: TileEvent)
    ensures var m := Merge(a, b);
      && (m.GenerateComplete? <==> a.GenerateComplete? || b.GenerateComplete?)
      && (m.GenerateComplete? ==> m.durationMs == if b.GenerateComplete? then b.durationMs else a.durationMs)
      && (m.UpdateComplete? ==> m.maxZoom == a.maxZoom && (m.areas == [] <==> a.areas == [] || b.areas == []))
  {
    hide Compact;
    if a.UpdateComplete? && b.UpdateComplete? { CompactIsBounded(a.areas + b.areas); }
  }

  function LastGeneration(events: seq<TileEvent>): Option<nat> {
    if events == [] then None
    else if events[|events| - 1].GenerateComplete? then Some(events[|events| - 1].durationMs)
    else LastGeneration(events[..|events| - 1])
  }

  // A fold tells everything each of its events does.
  lemma {:induction false} FoldIncludesEach(events: seq<TileEvent>, source: string, e: TileEvent)
    requires e in events && AllOf(events, source)
    ensures Includes(MergeAll(events), e)
  {
    hide Includes, Merge;
    if |events| == 1 {
      IncludesItself(e);
    } else {
      var before, last := events[..|events| - 1], events[|events| - 1];
      assert events == before + [last];
      assert AllOf(before, source);
      FoldSource(before, source);
      MergeIncludesBoth(MergeAll(before), last);
      if e in before {
        FoldIncludesEach(before, source, e);
        IncludesIsTransitive(MergeAll(events), MergeAll(before), e);
      }
    }
  }
}
