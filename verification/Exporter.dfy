// The export as a program (src/pmtiles.rs): list, read, pack, write, then check the
// finished archive, its structure and a sample of its tiles, against the store.

module Exporter {
  import opened Options
  import opened Words
  import opened Directory
  import opened Split
  import opened Packing
  import opened Reader
  import opened Sizes
  import opened Export
  import opened Verify
  import Header
  import Hilbert

  // ------------------------------------------------------------- listing and reading

  function LowestZoom(coords: seq<Coord>): u8 {
    if coords == [] then 255
    else
      var before, z := LowestZoom(coords[..|coords| - 1]), coords[|coords| - 1].z;
      if z < before then z else before
  }

  function HighestZoom(coords: seq<Coord>): u8 {
    if coords == [] then 0
    else
      var before, z := HighestZoom(coords[..|coords| - 1]), coords[|coords| - 1].z;
      if z > before then z else before
  }

  lemma {:induction false} ZoomBounds(coords: seq<Coord>, i: nat)
    requires i < |coords|
    ensures LowestZoom(coords) <= coords[i].z <= HighestZoom(coords)
  {
    var init := coords[..|coords| - 1];
    if i < |init| {
      ZoomBounds(init, i);
      assert init[i] == coords[i];
    }
  }

  lemma {:induction false} ZoomsReached(coords: seq<Coord>) returns (i: nat, j: nat)
    requires coords != []
    ensures i < |coords| && coords[i].z == LowestZoom(coords)
    ensures j < |coords| && coords[j].z == HighestZoom(coords)
  {
    var n := |coords| - 1;
    i, j := n, n;
    if n > 0 {
      var k, l := ZoomsReached(coords[..n]);
      if LowestZoom(coords) < coords[n].z { i := k; }
      if HighestZoom(coords) > coords[n].z { j := l; }
    }
  }

  predicate AllOnGrid(coords: seq<Coord>) {
    forall i :: 0 <= i < |coords| ==> coords[i].z <= 30 && coords[i].x < Pow2(coords[i].z) && coords[i].tmsY < Pow2(coords[i].z)
  }

  // The first coordinate off the grid of its zoom.
  predicate FirstOffGrid(coords: seq<Coord>, c: Coord) {
    exists i :: 0 <= i < |coords| && coords[i] == c && !AllOnGrid([c]) && AllOnGrid(coords[..i])
  }

  lemma EachOnGrid(coords: seq<Coord>)
    ensures AllOnGrid(coords) <==> forall i :: 0 <= i < |coords| ==> OnGrid(coords[i])
  {}

  lemma OffGridBreaks(coords: seq<Coord>, n: nat)
    requires n < |coords| && !OnGrid(coords[n]) && forall i :: 0 <= i < n ==> OnGrid(coords[i])
    ensures !AllOnGrid(coords) && FirstOffGrid(coords, coords[n])
  {
    assert [coords[n]][0] == coords[n];
  }

  // A coordinate with its id; none off the grid.
  method ListTile(c: Coord) returns (l: Option<Listed>)
    ensures l == if OnGrid(c) then Some(Listed(IdOfCoord(c), c)) else None
  {
    var y := FlipY(c);
    if y.None? { return None; }
    Hilbert.SmallMod(c.x, Pow2(c.z));
    Hilbert.SmallMod(y.value, Pow2(c.z));
    hide Hilbert.IdOf, Pow2;
    var id := Hilbert.TileId(c.z, c.x, y.value);
    l := Some(Listed(id, c));
  }

  // `for_each_tile_coord` with its callback: flip, track the zooms, collect.
  method ListTiles(coords: seq<Coord>) returns (bad: Option<Coord>, listed: seq<Listed>, minZoom: u8, maxZoom: u8)
    ensures bad.None? <==> AllOnGrid(coords)
    ensures bad.Some? ==> FirstOffGrid(coords, bad.value)
    ensures bad.None? ==> listed == ListedOf(coords) && minZoom == LowestZoom(coords) && maxZoom == HighestZoom(coords)
  {
    hide OnGrid, IdOfCoord;
    listed, minZoom, maxZoom := [], 255, 0;
    for n := 0 to |coords|
      invariant forall i :: 0 <= i < n ==> OnGrid(coords[i])
      invariant |listed| == n && forall i :: 0 <= i < n ==> listed[i] == Listed(IdOfCoord(coords[i]), coords[i])
      invariant minZoom == LowestZoom(coords[..n]) && maxZoom == HighestZoom(coords[..n])
    {
      var c := coords[n];
      assert coords[..n + 1][..n] == coords[..n];
      var l := ListTile(c);
      if l.None? {
        OffGridBreaks(coords, n);
        return Some(c), listed, minZoom, maxZoom;
      }
      if c.z < minZoom { minZoom := c.z; }
      if c.z > maxZoom { maxZoom := c.z; }
      listed := listed + [l.value];
    }
    assert coords[..|coords|] == coords;
    EachOnGrid(coords);
    bad := None;
  }

  // Rows for exactly the listed tiles still present, each what a client is owed.
  ghost predicate RowsDeliver(g: Gzip, store: TileStore, listed: seq<Listed>, rows: seq<Row>) {
    && (forall row :: row in rows ==> exists l :: l in listed && l.id == row.id && l.coord in store && Delivers(g, store[l.coord], row.blob))
    && (forall l :: l in listed && l.coord in store ==> exists row :: row in rows && row.id == l.id && Delivers(g, store[l.coord], row.blob))
  }

  lemma {:induction false} ListedRowsDeliver(g: Gzip, store: TileStore, listed: seq<Listed>)
    requires Lossless(g)
    ensures RowsDeliver(g, store, listed, RowsOf(g, store, listed))
  {
    hide Delivers, Normalised, Lossless;
    if listed != [] {
      var init, l := listed[..|listed| - 1], listed[|listed| - 1];
      var before, rows := RowsOf(g, store, init), RowsOf(g, store, listed);
      ListedRowsDeliver(g, store, init);
      assert listed == init + [l];
      if l.coord in store {
        NormalisedDelivers(g, store[l.coord]);
        assert rows[|before|] == Row(l.id, Normalised(g, store[l.coord]));
      }
      assert before <= rows;
      forall row | row in before ensures row in rows {}
    }
  }

  // The tiles still present when they are read, normalised.
  method ReadListed(g: Gzip, store: TileStore, listed: seq<Listed>) returns (rows: seq<Row>)
    ensures rows == RowsOf(g, store, listed)
    ensures Lossless(g) ==> RowsDeliver(g, store, listed, rows)
  {
    if Lossless(g) { ListedRowsDeliver(g, store, listed); }
    hide Lossless, RowsDeliver;
    rows := [];
    for i := 0 to |listed|
      invariant rows == RowsOf(g, store, listed[..i])
    {
      assert listed[..i + 1][..i] == listed[..i];
      var l := listed[i];
      if l.coord !in store { continue; }
      rows := rows + [Row(l.id, if IsGzipped(store[l.coord]) then store[l.coord] else g.zip(store[l.coord]))];
    }
    assert listed[..|listed|] == listed;
  }

  // ------------------------------------------------------------- the sample

  const SAMPLE: nat := 64

  function SampleIndex(n: nat, i: nat): (k: nat)
    requires i < SAMPLE && n > SAMPLE
    ensures k < n
  {
    var step := n / SAMPLE;
    StepInside(n, i);
    i * step
  }

  // `sample_tile_ids`
  function SampleIds(es: seq<Entry>): seq<u64> {
    if |es| <= SAMPLE then seq(|es|, i requires 0 <= i < |es| => es[i].tileId)
    else
      seq(SAMPLE, i requires 0 <= i < SAMPLE => es[SampleIndex(|es|, i)].tileId)
  }

  lemma SampledEntry(es: seq<Entry>, i: nat) returns (k: nat)
    requires i < |SampleIds(es)|
    ensures k < |es| && es[k].tileId == SampleIds(es)[i]
  {
    k := i;
    if |es| > SAMPLE { k := SampleIndex(|es|, i); }
  }

  // Every entry while there are at most 64, else 64 of them spread evenly, in order.
  lemma SampleSpread(es: seq<Entry>)
    requires forall i, j :: 0 <= i < j < |es| ==> es[i].tileId < es[j].tileId
    ensures |SampleIds(es)| == if |es| <= 64 then |es| else 64
    ensures |es| <= 64 ==> forall i :: 0 <= i < |es| ==> SampleIds(es)[i] == es[i].tileId
    ensures forall i, j :: 0 <= i < j < |SampleIds(es)| ==> SampleIds(es)[i] < SampleIds(es)[j]
  {
    if |es| > 64 {
      forall i, j | 0 <= i < j < 64 ensures SampleIds(es)[i] < SampleIds(es)[j] { IndexStrict(|es|, i, j); }
    }
    hide SampleIndex;
  }

  lemma SampledAt(es: seq<Entry>, i: nat)
    requires |es| > 64 && i < 64
    ensures 0 <= i * (|es| / 64) < |es| && SampleIds(es)[i] == es[i * (|es| / 64)].tileId
  {
    StepInside(|es|, i);
  }

  lemma IndexStrict(n: nat, i: nat, j: nat)
    requires i < j < SAMPLE && n > SAMPLE
    ensures SampleIndex(n, i) < SampleIndex(n, j)
  {
    MulStrict(i, j, n / SAMPLE);
  }

  lemma MulStrict(i: nat, j: nat, step: nat)
    requires i < j && step >= 1
    ensures i * step < j * step
  {
    MulAtLeast(step, j - i);
    assert j * step == i * step + (j - i) * step;
  }

  // So it is for the entries of an export.
  lemma ExportSampleSpread(g: Gzip, hash: Digest, store: TileStore, coords: seq<Coord>)
    requires Injective(hash) && Distinct(coords) && AllOnGrid(coords) && FitsFields(ExportRows(g, store, coords))
    ensures var es, ids := Pack(hash, ExportRows(g, store, coords)).entries, ExportSample(g, hash, store, coords);
      && |ids| == (if |es| <= 64 then |es| else 64) && forall i, j :: 0 <= i < j < |ids| ==> ids[i] < ids[j]
  {
    var rows := ExportRows(g, store, coords);
    ExportRowsAscend(g, store, coords);
    PackLayout(hash, rows);
    var es := Pack(hash, rows).entries;
    hide Pack, ExportRows, SampleIds, AllOnGrid, Distinct, FitsFields, Injective;
    forall i, j | 0 <= i < j < |es| ensures es[i].tileId < es[j].tileId { RunsApartMeaning(es, i, j); }
    SampleSpread(es);
  }

  lemma MulMonotone(i: nat, k: nat, step: nat)
    requires i <= k
    ensures 0 <= i * step <= k * step
  {
    assert (k - i) * step >= 0;
  }

  lemma StepInside(n: nat, i: nat)
    requires i < SAMPLE && n > SAMPLE
    ensures 0 <= i * (n / SAMPLE) < n
  {
    var step := n / SAMPLE;
    MulMonotone(i, SAMPLE - 1, step);
  }

  // The coordinate whose tile has an id; unlike the listing, this goes to zoom 31.
  predicate TileOf(c: Coord, id: u64) {
    c.z <= Hilbert.MAX_ZOOM && c.x < Pow2(c.z) && c.tmsY < Pow2(c.z) && Hilbert.IdOf(c.z, c.x, Pow2(c.z) - 1 - c.tmsY) == id
  }

  datatype TileCheck = Same | Vanished | Unreadable | Missing | Differs

  // One sampled tile of the archive against the store as it is now.
  function CheckTile(g: Gzip, file: Bytes, later: TileStore, id: u64, c: Coord): TileCheck {
    if c !in later then Vanished
    else
      match ReadTile(DirectoryReader(g), file, id)
      case Broken => Unreadable
      case Absent => Missing
      case Found(data) =>
        var tile := later[c];
        var expected :=
          if |tile| >= 3 && tile[0] == 0x1f && tile[1] == 0x8b && tile[2] == 0x08 then tile else g.zip(tile);
        if data == expected then Same else Differs
  }

  ghost predicate TilePasses(g: Gzip, file: Bytes, later: TileStore, id: u64) {
    id < Hilbert.TilesBelow(Hilbert.MAX_ZOOM + 1) && forall c :: TileOf(c, id) ==> CheckTile(g, file, later, id, c) == Same
  }

  lemma OneTile(c: Coord, d: Coord, id: u64)
    requires TileOf(c, id) && TileOf(d, id)
    ensures c == d
  {
    Hilbert.IdsAreUnique(c.z, c.x, Pow2(c.z) - 1 - c.tmsY, d.z, d.x, Pow2(d.z) - 1 - d.tmsY);
  }

  datatype Verdict = Matches(tiles: nat) | NotVerified | BeyondZoom(id: u64) | Mismatch(coord: Coord, why: TileCheck)

  // `verify_against_source`
  method VerifyAgainstSource(g: Gzip, file: Bytes, later: TileStore, sample: seq<u64>) returns (v: Verdict)
    ensures v.NotVerified? <==> !Verified(DirectoryReader(g), file)
    ensures v.Matches? <==> Verified(DirectoryReader(g), file) && forall i :: 0 <= i < |sample| ==> TilePasses(g, file, later, sample[i])
    ensures v.Matches? ==> v.tiles == |sample|
    ensures v.BeyondZoom? ==> v.id in sample && v.id >= Hilbert.TilesBelow(Hilbert.MAX_ZOOM + 1)
    ensures v.Mismatch? ==> exists i :: (0 <= i < |sample| && TileOf(v.coord, sample[i])
      && CheckTile(g, file, later, sample[i], v.coord) == v.why != Same
      && forall j :: 0 <= j < i ==> TilePasses(g, file, later, sample[j]))
  {
    hide Verified, ReadTile, CheckTile, Pow2, Hilbert.IdOf, Hilbert.TilesBelow, DirectoryReader;
    var ok := VerifyArchive(g, file);
    if !ok { return NotVerified; }
    var i := 0;
    while i < |sample|
      invariant 0 <= i <= |sample|
      invariant forall j :: 0 <= j < i ==> TilePasses(g, file, later, sample[j])
    {
      var c, why := CheckSampled(g, file, later, sample[i]);
      if c.None? { return BeyondZoom(sample[i]); }
      if why != Same { return Mismatch(c.value, why); }
      i := i + 1;
    }
    v := Matches(|sample|);
  }

  // The body of its loop: none when the id lies beyond zoom 31.
  method CheckSampled(g: Gzip, file: Bytes, later: TileStore, id: u64) returns (c: Option<Coord>, why: TileCheck)
    ensures c.None? <==> id >= Hilbert.TilesBelow(Hilbert.MAX_ZOOM + 1)
    ensures c.Some? ==> TileOf(c.value, id) && why == CheckTile(g, file, later, id, c.value)
    ensures c.Some? ==>
      && (why.Vanished? <==> c.value !in later)
      && (why.Unreadable? <==> c.value in later && ReadTile(DirectoryReader(g), file, id).Broken?)
      && (why.Missing? <==> c.value in later && ReadTile(DirectoryReader(g), file, id).Absent?)
    ensures TilePasses(g, file, later, id) <==> c.Some? && why == Same
  {
    hide ReadTile, Hilbert.IdOf, Hilbert.TilesBelow, DirectoryReader;
    var at := Hilbert.TileIdToZxy(id);
    if at.BeyondZoom31? { return None, Vanished; }
    GridFits(at.z);
    var coord := Coord(at.z, at.x, Pow2(at.z) - 1 - at.y);
    assert TileOf(coord, id);
    forall d | TileOf(d, id) ensures d == coord { OneTile(coord, d, id); }
    if coord !in later { return Some(coord), Vanished; }
    Hilbert.SmallMod(at.x, Pow2(at.z));
    Hilbert.SmallMod(at.y, Pow2(at.z));
    var read := GetTile(g, file, at.z, at.x, at.y);
    var expected := if IsGzipped(later[coord]) then later[coord] else g.zip(later[coord]);
    c := Some(coord);
    why := match read
      case Broken => Unreadable
      case Absent => Missing
      case Found(data) => if data == expected then Same else Differs;
  }

  lemma GridFits(z: nat)
    requires z <= Hilbert.MAX_ZOOM
    ensures Pow2(z) < TWO_TO_THE_32
  {
    Pow2Monotone(z, 31);
    Pow2Values();
  }

  // ------------------------------------------------------------- the archive exported

  function AboutFor(coords: seq<Coord>, about: About, centerZoom: Option<u8>): About {
    about.(minZoom := LowestZoom(coords), maxZoom := HighestZoom(coords),
      centerZoom := if centerZoom.Some? then centerZoom.value else LowestZoom(coords))
  }

  // What is written; nothing when no leaf size makes the root fit.
  function ExportedFile(g: Gzip, hash: Digest, store: TileStore, coords: seq<Coord>, text: Bytes, about: About, centerZoom: Option<u8>)
    : Option<Bytes>
    requires AllOnGrid(coords)
  {
    var rows := ExportRows(g, store, coords);
    var p := Pack(hash, rows);
    match BuildDirectories(DirectoryWriter(g), p.entries)
    case None => None
    case Some(b) => Some(ArchiveOf(p, b, g.zip(text), |rows|, AboutFor(coords, about, centerZoom)))
  }

  function ExportSample(g: Gzip, hash: Digest, store: TileStore, coords: seq<Coord>): seq<u64>
    requires AllOnGrid(coords)
  {
    SampleIds(Pack(hash, ExportRows(g, store, coords)).entries)
  }

  // The archive passes the final check.
  ghost predicate Accepted(g: Gzip, hash: Digest, store: TileStore, later: TileStore, coords: seq<Coord>, file: Bytes)
    requires AllOnGrid(coords)
  {
    var sample := ExportSample(g, hash, store, coords);
    Verified(DirectoryReader(g), file) && forall i :: 0 <= i < |sample| ==> TilePasses(g, file, later, sample[i])
  }

  // A client asking for any tile of any zoom up to 31 gets what it is owed for a tile
  // that was listed and present, and nothing for any other.
  ghost predicate ReadsBack(g: Gzip, store: TileStore, coords: seq<Coord>, file: Bytes) {
    forall c, id {:trigger TileOf(c, id)} :: TileOf(c, id) ==>
      var read := ReadTile(DirectoryReader(g), file, id);
      if c in coords && c in store then read.Found? && Delivers(g, store[c], read.data) else read == Absent
  }

  ghost predicate ReadsExactly(g: Gzip, store: TileStore, coords: seq<Coord>, file: Bytes) {
    forall z: nat, x, y, id: u64 {:trigger Hilbert.InGrid(z, x, y), ReadTile(DirectoryReader(g), file, id)} ::
      z <= 31 && Hilbert.InGrid(z, x, y) && id == Hilbert.IdOf(z, x, y) ==>
      ReadTile(DirectoryReader(g), file, id) == Wanted(g, store, coords, z, x, y)
  }

  // ------------------------------------------------------------- what it rests on

  ghost predicate Lawful(g: Gzip, hash: Digest) {
    Lossless(g) && Deflates(g) && Injective(hash)
  }

  // More than any header and directories for fewer than 2^32 tiles take.
  const DIRECTORY_ROOM: nat := 0x100_0000_0000

  // The tiles fit the fields of the format, and with the metadata a 64-bit file.
  ghost predicate FitsFile(rows: seq<Row>, metadata: Bytes) {
    FitsFields(rows) && TotalBytes(rows) + |metadata| + DIRECTORY_ROOM <= TWO_TO_THE_64
  }

  ghost predicate Exportable(g: Gzip, hash: Digest, store: TileStore, coords: seq<Coord>, text: Bytes) {
    Lawful(g, hash) && Distinct(coords) && AllOnGrid(coords) && FitsFile(ExportRows(g, store, coords), g.zip(text))
  }

  lemma PackedSizes(hash: Digest, rows: seq<Row>)
    requires Injective(hash) && Packable(rows)
    ensures var p := Pack(hash, rows); |p.entries| <= |rows| && |p.data| <= TotalBytes(rows)
  {
    hide Pack, Injective, Packable;
    PackLayout(hash, rows);
    PackStores(hash, rows);
  }

  // Then the directories can be built, fit, and are none too long to be read.
  lemma ExportFits(g: Gzip, hash: Digest, rows: seq<Row>, metadata: Bytes) returns (b: Built)
    requires Lawful(g, hash) && Ascending(rows) && FitsFile(rows, metadata)
    ensures var p := Pack(hash, rows);
      && BuildDirectories(DirectoryWriter(g), p.entries) == Some(b)
      && ArchiveFits(DirectoryWriter(g), p, b, metadata)
      && DirectoriesReadable(|p.entries|, b)
  {
    var p := Pack(hash, rows);
    PackedSizes(hash, rows);
    hide Pack, DirectoryWriter, BuildDirectories, SplitFrom, SplitFits, Lossless, Deflates, Injective, Ascending, TotalBytes;
    BuildSucceeds(g, p.entries);
    b := BuildDirectories(DirectoryWriter(g), p.entries).value;
    BuiltShape(DirectoryWriter(g), p.entries);
    if b.leafSize > 0 { LeavesCounted(DirectoryWriter(g), p.entries); }
  }

  lemma ExportReads(g: Gzip, hash: Digest, store: TileStore, coords: seq<Coord>, b: Built, metadata: Bytes, tiles: nat, about: About)
    requires Lossless(g) && Injective(hash) && Distinct(coords) && AllOnGrid(coords)
    requires var rows := ExportRows(g, store, coords);
      && FitsFields(rows)
      && (var p := Pack(hash, rows);
      && BuildDirectories(DirectoryWriter(g), p.entries) == Some(b)
      && ArchiveFits(DirectoryWriter(g), p, b, metadata)
      && DirectoriesReadable(|p.entries|, b))
    ensures ReadsExactly(g, store, coords, ArchiveOf(Pack(hash, ExportRows(g, store, coords)), b, metadata, tiles, about))
  {
    hide ExportRows, ArchiveOf, DirectoryReader, DirectoryWriter, DirectoriesReadable, ArchiveFits, BuildDirectories, ReadTile, Wanted,
      Hilbert.IdOf, Hilbert.InGrid, Pack, Lossless, Injective, FitsFields;
    var file := ArchiveOf(Pack(hash, ExportRows(g, store, coords)), b, metadata, tiles, about);
    forall z: nat, x, y, id: u64 | z <= 31 && Hilbert.InGrid(z, x, y) && id == Hilbert.IdOf(z, x, y)
      ensures ReadTile(DirectoryReader(g), file, id) == Wanted(g, store, coords, z, x, y)
    {
      ExportThenRead(g, hash, store, coords, b, metadata, tiles, about, z, x, y, id);
    }
  }

  // An export always gives an archive, which passes the structural check and reads
  // back as the store: for every tile of every zoom exactly the store's tile in gzip
  // form if it was listed, and absence otherwise.
  lemma ExportReadsBack(g: Gzip, hash: Digest, store: TileStore, coords: seq<Coord>, text: Bytes, about: About, centerZoom: Option<u8>)
    requires Exportable(g, hash, store, coords, text)
    ensures var file := ExportedFile(g, hash, store, coords, text, about, centerZoom);
      file.Some? && Verified(DirectoryReader(g), file.value)
      && ReadsExactly(g, store, coords, file.value) && ReadsBack(g, store, coords, file.value)
  {
    var rows := ExportRows(g, store, coords);
    ExportRowsAscend(g, store, coords);
    var b := ExportFits(g, hash, rows, g.zip(text));
    var about' := AboutFor(coords, about, centerZoom);
    var file := ExportedFile(g, hash, store, coords, text, about, centerZoom).value;
    hide ExportRows, ArchiveOf, DirectoryReader, DirectoryWriter, DirectoriesReadable, ArchiveFits, BuildDirectories, ReadTile, Wanted,
      Verified, AboutFor, Pack, Ascending, Lossless, Deflates, Injective, ReadsExactly, ReadsBack;
    ExportVerifies(g, hash, rows, b, g.zip(text), |rows|, about');
    ExportReads(g, hash, store, coords, b, g.zip(text), |rows|, about');
    ExactlyReadsBack(g, store, coords, file);
  }

  lemma ExactlyReadsBack(g: Gzip, store: TileStore, coords: seq<Coord>, file: Bytes)
    requires Lossless(g) && ReadsExactly(g, store, coords, file)
    ensures ReadsBack(g, store, coords, file)
  {
    hide DirectoryReader, ReadTile, Delivers, Normalised, Lossless;
    forall c, id | TileOf(c, id)
      ensures var read := ReadTile(DirectoryReader(g), file, id);
        if c in coords && c in store then read.Found? && Delivers(g, store[c], read.data) else read == Absent
    {
      ReadIsWanted(g, store, coords, file, id, c);
      if c in store { NormalisedDelivers(g, store[c]); }
    }
  }

  lemma ReadIsWanted(g: Gzip, store: TileStore, coords: seq<Coord>, file: Bytes, id: u64, c: Coord)
    requires ReadsExactly(g, store, coords, file) && TileOf(c, id)
    ensures ReadTile(DirectoryReader(g), file, id) == if c in coords && c in store then Found(Normalised(g, store[c])) else Absent
  {
    hide Normalised, DirectoryReader, ReadTile, Hilbert.IdOf;
    assert Hilbert.InGrid(c.z, c.x, Pow2(c.z) - 1 - c.tmsY);
  }

  // ------------------------------------------------------------- what the header says

  // The coordinates a list shows present in the store.
  function Present(store: TileStore, ls: seq<Listed>): set<Coord> {
    set l | l in ls && l.coord in store :: l.coord
  }

  lemma {:induction false} RowsCounted(g: Gzip, store: TileStore, ls: seq<Listed>)
    requires forall i, j :: 0 <= i < j < |ls| ==> ls[i].coord != ls[j].coord
    ensures |RowsOf(g, store, ls)| == |Present(store, ls)|
  {
    if ls != [] {
      var init, l := ls[..|ls| - 1], ls[|ls| - 1];
      RowsCounted(g, store, init);
      PresentGrows(store, ls);
      hide Present;
    }
  }

  lemma PresentGrows(store: TileStore, ls: seq<Listed>)
    requires ls != [] && forall i :: 0 <= i < |ls| - 1 ==> ls[i].coord != ls[|ls| - 1].coord
    ensures var init, c := Present(store, ls[..|ls| - 1]), ls[|ls| - 1].coord;
      c !in init && Present(store, ls) == if c in store then init + {c} else init
  {
    var init, l := ls[..|ls| - 1], ls[|ls| - 1];
    assert ls == init + [l];
    assert forall k :: k in init ==> k.coord != l.coord;
    forall c ensures c in Present(store, ls) <==> c in Present(store, init) || (c == l.coord && c in store) {}
  }

  lemma CoordsApart(ls: seq<Listed>)
    requires StrictIds(ls) && forall l :: l in ls ==> OnGrid(l.coord) && l.id == IdOfCoord(l.coord)
    ensures forall i, j :: 0 <= i < j < |ls| ==> ls[i].coord != ls[j].coord
  {
    hide OnGrid, IdOfCoord;
  }

  lemma ExportedCount(g: Gzip, store: TileStore, coords: seq<Coord>)
    requires Distinct(coords) && AllOnGrid(coords)
    ensures |ExportRows(g, store, coords)| == |set c | c in coords && c in store|
  {
    var ls := ListedOf(coords);
    ListedIdsDistinct(coords);
    SortIsStrict(ls);
    hide OnGrid, IdOfCoord, SortById, Distinct;
    CoordsApart(SortById(ls));
    RowsCounted(g, store, SortById(ls));
    assert Present(store, SortById(ls)) == set c | c in coords && c in store by {
      forall c ensures c in Present(store, SortById(ls)) <==> c in coords && c in store {
        if c in coords && c in store {
          var i :| 0 <= i < |coords| && coords[i] == c;
          assert ls[i] in ls && ls[i].coord == c;
        }
      }
    }
  }

  lemma BlobsAreSet(rows: seq<Row>)
    ensures Blobs(rows) == set row | row in rows :: row.blob
  {
    forall blob ensures blob in Blobs(rows) <==> blob in set row | row in rows :: row.blob { BlobsMeaning(rows, blob); }
  }

  // The header of an export: the tiles listed and present, the entries, the distinct
  // contents, the zooms of the list and the formats; behind it the sections up to the
  // end of the file, among them the metadata.
  lemma ExportDescribes(g: Gzip, hash: Digest, store: TileStore, coords: seq<Coord>, text: Bytes, about: About, centerZoom: Option<u8>)
    requires Exportable(g, hash, store, coords, text)
    ensures var file, rows := ExportedFile(g, hash, store, coords, text, about, centerZoom), ExportRows(g, store, coords);
      file.Some? && Header.FromBytes(file.value).Good? && (var h := Header.FromBytes(file.value).header;
      && h.addressedTiles == |set c | c in coords && c in store|
      && h.tileEntries == |Pack(hash, rows).entries|
      && h.tileContents == |set row | row in rows :: row.blob|
      && h.clustered && h.internalCompression.Gzipped? && h.tileCompression.Gzipped?
      && h.minZoom == LowestZoom(coords) && h.maxZoom == HighestZoom(coords)
      && h.centerZoom == (if centerZoom.Some? then centerZoom.value else LowestZoom(coords))
      && (h.minLon, h.minLat, h.maxLon, h.maxLat) == (about.minLon, about.minLat, about.maxLon, about.maxLat)
      && (h.centerLon, h.centerLat) == (about.centerLon, about.centerLat)
      && h.rootOffset == 127 && h.metadataOffset == h.rootOffset + h.rootLength
      && h.leafOffset == h.metadataOffset + h.metadataLength && h.dataOffset == h.leafOffset + h.leafLength
      && h.dataOffset + h.dataLength == |file.value|
      && ReadAt(file.value, h.metadataOffset, h.metadataLength).Some?
      && g.unzip(ReadAt(file.value, h.metadataOffset, h.metadataLength).value) == Some(text))
  {
    var rows := ExportRows(g, store, coords);
    ExportRowsAscend(g, store, coords);
    var b := ExportFits(g, hash, rows, g.zip(text));
    var about' := AboutFor(coords, about, centerZoom);
    ExportedCount(g, store, coords);
    BlobsAreSet(rows);
    PackedCounts(hash, rows);
    hide ExportRows, ArchiveOf, BuildDirectories, DirectoryWriter, Pack, Blobs, LowestZoom, HighestZoom, Header.FromBytes, ReadAt, Distinct,
      AllOnGrid, Ascending, TotalBytes, DirectoriesReadable;
    SectionsAdjoin(Pack(hash, rows), b, g.zip(text), |rows|, about');
    HeaderIs(Pack(hash, rows), b, g.zip(text), |rows|, about');
  }

  lemma PackedCounts(hash: Digest, rows: seq<Row>)
    requires Injective(hash) && Packable(rows)
    ensures var p := Pack(hash, rows); |p.seen| == |Blobs(rows)| <= |p.entries| <= |rows| < TWO_TO_THE_32 && p.dataLen == |p.data|
  {
    hide Pack, Injective;
    PackLayout(hash, rows);
    PackStores(hash, rows);
  }

  lemma HeaderIs(p: Packed, b: Built, metadata: Bytes, tiles: nat, about: About)
    requires tiles < TWO_TO_THE_64 && |p.entries| < TWO_TO_THE_64 && |p.seen| < TWO_TO_THE_64
    ensures var h := HeaderFor(p, b, metadata, tiles, about);
      && h.addressedTiles == tiles && h.tileEntries == |p.entries| && h.tileContents == |p.seen|
      && h.clustered && h.internalCompression.Gzipped? && h.tileCompression.Gzipped?
      && h.minZoom == about.minZoom && h.maxZoom == about.maxZoom && h.centerZoom == about.centerZoom
      && (h.minLon, h.minLat, h.maxLon, h.maxLat) == (about.minLon, about.minLat, about.maxLon, about.maxLat)
      && (h.centerLon, h.centerLat) == (about.centerLon, about.centerLat)
  {}

  // ------------------------------------------------------------- the final check

  // Every sampled id is a tile of the store that was listed.
  lemma SampledTile(g: Gzip, hash: Digest, store: TileStore, coords: seq<Coord>, i: nat) returns (c: Coord)
    requires Injective(hash) && Distinct(coords) && AllOnGrid(coords) && FitsFields(ExportRows(g, store, coords))
    requires i < |ExportSample(g, hash, store, coords)|
    ensures TileOf(c, ExportSample(g, hash, store, coords)[i]) && c in coords && c in store && OnGrid(c)
  {
    var rows := ExportRows(g, store, coords);
    var id := ExportSample(g, hash, store, coords)[i];
    ExportRowsAscend(g, store, coords);
    hide ExportRows, Pack, RowFor, IdOfCoord, OnGrid, Hilbert.IdOf, Pow2;
    var k := SampledEntry(Pack(hash, rows).entries, i);
    EntryIsATile(hash, rows, k);
    if forall l :: l in ListedOf(coords) ==> l.id != id { UnlistedRow(g, store, coords, id); }
    var l :| l in ListedOf(coords) && l.id == id;
    var j :| 0 <= j < |coords| && ListedOf(coords)[j] == l;
    c := coords[j];
    ListedRow(g, store, coords, j);
    CoordIsTile(c);
  }

  lemma CoordIsTile(c: Coord)
    requires OnGrid(c)
    ensures TileOf(c, IdOfCoord(c))
  {}

  // The sampled tiles of the store, when the archive is checked, as they were read.
  ghost predicate SampleUnchanged(g: Gzip, hash: Digest, store: TileStore, later: TileStore, coords: seq<Coord>)
    requires AllOnGrid(coords)
  {
    forall i :: 0 <= i < |ExportSample(g, hash, store, coords)| ==> TileUnchanged(g, store, later, ExportSample(g, hash, store, coords)[i])
  }

  // The same bytes, or one of the two is the gzip the other is sent as.
  ghost predicate SameTile(g: Gzip, a: Bytes, b: Bytes) {
    a == b || (IsGzipped(a) && !IsGzipped(b) && a == g.zip(b)) || (IsGzipped(b) && !IsGzipped(a) && b == g.zip(a))
  }

  lemma SameNormalised(g: Gzip, a: Bytes, b: Bytes)
    requires Lossless(g)
    ensures SameTile(g, a, b) <==> Normalised(g, a) == Normalised(g, b)
  {
    assert g.unzip(g.zip(a)) == Some(a) && g.unzip(g.zip(b)) == Some(b);
    hide IsGzipped;
  }

  ghost predicate TileUnchanged(g: Gzip, store: TileStore, later: TileStore, id: u64) {
    forall c :: TileOf(c, id) && c in store ==> c in later && SameTile(g, later[c], store[c])
  }

  // So the export succeeds exactly when no sampled tile changed meanwhile: on a store
  // at rest it never refuses its own archive.
  lemma ExportAccepts(g: Gzip, hash: Digest, store: TileStore, later: TileStore, coords: seq<Coord>, text: Bytes, about: About,
                      centerZoom: Option<u8>)
    requires Exportable(g, hash, store, coords, text)
    ensures var file := ExportedFile(g, hash, store, coords, text, about, centerZoom);
      file.Some? && (Accepted(g, hash, store, later, coords, file.value) <==> SampleUnchanged(g, hash, store, later, coords))
  {
    ExportReadsBack(g, hash, store, coords, text, about, centerZoom);
    hide ExportRows, ExportSample, ExportedFile, ReadsExactly, ReadsBack, TilePasses, TileOf, Verified, DirectoryReader, Distinct, OnGrid, AllOnGrid,
      Lawful, FitsFile, Normalised, TileUnchanged;
    var file := ExportedFile(g, hash, store, coords, text, about, centerZoom).value;
    forall i | 0 <= i < |ExportSample(g, hash, store, coords)|
      ensures TilePasses(g, file, later, ExportSample(g, hash, store, coords)[i])
        <==> TileUnchanged(g, store, later, ExportSample(g, hash, store, coords)[i])
    {
      SampledAgrees(g, hash, store, later, coords, text, file, i);
    }
  }

  lemma SampledAgrees(g: Gzip, hash: Digest, store: TileStore, later: TileStore, coords: seq<Coord>, text: Bytes, file: Bytes, i: nat)
    requires Exportable(g, hash, store, coords, text) && ReadsExactly(g, store, coords, file)
    requires i < |ExportSample(g, hash, store, coords)|
    ensures var id := ExportSample(g, hash, store, coords)[i]; TilePasses(g, file, later, id) <==> TileUnchanged(g, store, later, id)
  {
    hide ExportRows, ExportSample, ReadsExactly, TilePasses, TileOf, Distinct, OnGrid, AllOnGrid, Injective, Lossless, Deflates, FitsFields,
      Normalised, SameTile;
    var c := SampledTile(g, hash, store, coords, i);
    var id := ExportSample(g, hash, store, coords)[i];
    forall d | TileOf(d, id) ensures d == c { OneTile(c, d, id); }
    SampledPasses(g, store, later, coords, file, id, c);
    if c in later { SameNormalised(g, later[c], store[c]); }
  }

  lemma SampledPasses(g: Gzip, store: TileStore, later: TileStore, coords: seq<Coord>, file: Bytes, id: u64, c: Coord)
    requires ReadsExactly(g, store, coords, file) && TileOf(c, id) && c in coords && c in store
    ensures TilePasses(g, file, later, id) <==> c in later && Normalised(g, later[c]) == Normalised(g, store[c])
  {
    TileInRange(c, id);
    ReadIsWanted(g, store, coords, file, id, c);
    forall d | TileOf(d, id) ensures d == c { OneTile(c, d, id); }
    hide DirectoryReader, ReadTile, Hilbert.TilesBelow, ReadsExactly, TileOf;
  }

  lemma TileInRange(c: Coord, id: u64)
    requires TileOf(c, id)
    ensures id < Hilbert.TilesBelow(Hilbert.MAX_ZOOM + 1)
  {
    hide Hilbert.IdOf, Hilbert.TilesBelow, Pow2;
    Hilbert.TilesBelowMonotone(c.z + 1, Hilbert.MAX_ZOOM + 1);
    assert Hilbert.InGrid(c.z, c.x, Pow2(c.z) - 1 - c.tmsY);
  }

  // ------------------------------------------------------------- the program

  datatype Stats = Stats(addressedTiles: nat, tileEntries: nat, tileContents: nat, leafDirectories: nat, bytesWritten: nat,
    minZoom: u8, maxZoom: u8, tilesVerified: nat)

  datatype ExportResult =
    | Exported(file: Bytes, stats: Stats)
    | OffGrid(coord: Coord)      // a row outside the grid of its zoom
    | NoTiles
    | RootTooLarge               // no leaf size makes the root fit
    | Refused(why: Verdict)      // the finished archive fails its own check

  // The counts reported of an export: its tiles, entries, contents and leaves, its size,
  // its zooms and the tiles compared.
  ghost predicate Counted(g: Gzip, hash: Digest, store: TileStore, coords: seq<Coord>, file: Bytes, stats: Stats)
    requires AllOnGrid(coords) && BuildDirectories(DirectoryWriter(g), Pack(hash, ExportRows(g, store, coords)).entries).Some?
  {
    var p := Pack(hash, ExportRows(g, store, coords));
    && (Distinct(coords) ==> stats.addressedTiles == |set c | c in coords && c in store|)
    && stats.tileEntries == |p.entries| && stats.tileContents == |p.seen|
    && stats.leafDirectories == BuildDirectories(DirectoryWriter(g), p.entries).value.leafCount
    && stats.bytesWritten == |file| && stats.minZoom == LowestZoom(coords) && stats.maxZoom == HighestZoom(coords)
    && stats.tilesVerified == |ExportSample(g, hash, store, coords)|
  }

  // The archive of tiles listed and found to be on their grids.
  method WriteArchive(g: Gzip, hash: Digest, store: TileStore, coords: seq<Coord>, listed: seq<Listed>, minZoom: u8, maxZoom: u8,
      text: Bytes, about: About, centerZoom: Option<u8>)
    returns (file: Option<Bytes>, sample: seq<u64>, stats: Stats)
    requires AllOnGrid(coords) && listed == ListedOf(coords) && minZoom == LowestZoom(coords) && maxZoom == HighestZoom(coords)
    ensures file == ExportedFile(g, hash, store, coords, text, about, centerZoom)
    ensures sample == ExportSample(g, hash, store, coords)
    ensures file.Some? ==> Counted(g, hash, store, coords, file.value, stats)
  {
    hide DirectoryWriter, ArchiveOf, Pack, SampleIds, BuildDirectories, RowsOf, SortById, ListedOf, OnGrid, LowestZoom, HighestZoom;
    if Distinct(coords) { ExportedCount(g, store, coords); }
    var rows := ReadListed(g, store, SortById(listed));
    var p, addressedTiles := PackTiles(hash, rows);
    var built := ChooseDirectories(DirectoryWriter(g), p.entries);
    sample := SampleIds(p.entries);
    if built.None? { return None, sample, Stats(0, 0, 0, 0, 0, 0, 0, 0); }
    var b := built.value;
    var about' := about.(minZoom := minZoom, maxZoom := maxZoom,
      centerZoom := if centerZoom.Some? then centerZoom.value else minZoom);
    file := Some(ArchiveOf(p, b, g.zip(text), addressedTiles, about'));
    stats := Stats(addressedTiles, |p.entries|, |p.seen|, b.leafCount, |file.value|, minZoom, maxZoom, |sample|);
  }

  // `export_mbtiles`; `later` is the store when the finished archive is compared.
  method ExportMbtiles(g: Gzip, hash: Digest, store: TileStore, later: TileStore, coords: seq<Coord>, text: Bytes, about: About,
      centerZoom: Option<u8>)
    returns (r: ExportResult)
    ensures r.OffGrid? <==> !AllOnGrid(coords)
    ensures r.OffGrid? ==> FirstOffGrid(coords, r.coord)
    ensures r.NoTiles? <==> coords == []
    ensures AllOnGrid(coords) && coords != [] ==>
      var file := ExportedFile(g, hash, store, coords, text, about, centerZoom);
      && (r.RootTooLarge? <==> file.None?)
      && (r.Exported? <==> file.Some? && Accepted(g, hash, store, later, coords, file.value))
      && (r.Refused? ==> (r.why.NotVerified? <==> !Verified(DirectoryReader(g), file.value)))
      && (r.Exported? ==> r.file == file.value && Counted(g, hash, store, coords, file.value, r.stats))
    ensures AllOnGrid(coords) && coords != [] && Exportable(g, hash, store, coords, text) ==>
      && (r.Exported? ==> ReadsBack(g, store, coords, r.file))
      && (r.Exported? <==> SampleUnchanged(g, hash, store, later, coords))
  {
    hide Verified, TilePasses, ReadsBack, ReadsExactly, SampleUnchanged, Lawful, FitsFile, Distinct, DirectoryReader, ExportedFile, ExportSample, Counted,
      ListedOf, OnGrid, LowestZoom, HighestZoom, ExportRows;
    var bad, listed, minZoom, maxZoom := ListTiles(coords);
    if bad.Some? { return OffGrid(bad.value); }
    if listed == [] { return NoTiles; }
    var file, sample, stats := WriteArchive(g, hash, store, coords, listed, minZoom, maxZoom, text, about, centerZoom);
    if file.None? { r := RootTooLarge; }
    else {
      var verdict := VerifyAgainstSource(g, file.value, later, sample);
      r := if verdict.Matches? then Exported(file.value, stats) else Refused(verdict);
    }
    if Exportable(g, hash, store, coords, text) {
      ExportReadsBack(g, hash, store, coords, text, about, centerZoom);
      ExportAccepts(g, hash, store, later, coords, text, about, centerZoom);
    }
  }
}
