// Exporting a tile store into an archive (src/pmtiles.rs), and the theorem that
// reading the archive gives the store back.

module Export {
  import opened Options
  import opened Words
  import opened Varint
  import opened Directory
  import opened Split
  import opened Packing
  import opened Reader
  import opened Sizes
  import opened Sorting
  import Header
  import Hilbert

  // ------------------------------------------------------------- the archive

  // What the header holds besides the section sizes.
  datatype About = About(
    minZoom: u8, maxZoom: u8,
    minLon: Header.i32, minLat: Header.i32, maxLon: Header.i32, maxLat: Header.i32,
    centerZoom: u8, centerLon: Header.i32, centerLat: Header.i32)

  function HeaderFor(p: Packed, b: Built, metadata: Bytes, addressedTiles: nat, about: About): Header.Header {
    var metadataOffset := Header.HEADER_LEN + |b.root|;
    var leafOffset := metadataOffset + |metadata|;
    var dataOffset := leafOffset + |b.leaves|;
    Header.Header(
      Header.HEADER_LEN, Wrap64(|b.root|), Wrap64(metadataOffset), Wrap64(|metadata|),
      Wrap64(leafOffset), Wrap64(|b.leaves|), Wrap64(dataOffset), p.dataLen,
      Wrap64(addressedTiles), Wrap64(|p.entries|), Wrap64(|p.seen|),
      true, Header.Gzipped, Header.Gzipped, Header.Mvt,
      about.minZoom, about.maxZoom, about.minLon, about.minLat, about.maxLon, about.maxLat,
      about.centerZoom, about.centerLon, about.centerLat)
  }

  // Header, root directory, metadata, leaf directories, tile data.
  function FileOf(header: Bytes, root: Bytes, metadata: Bytes, leaves: Bytes, data: Bytes): Bytes {
    header + (root + (metadata + (leaves + data)))
  }

  lemma FileSections(header: Bytes, root: Bytes, metadata: Bytes, leaves: Bytes, data: Bytes)
    ensures var file := FileOf(header, root, metadata, leaves, data);
      && At(file, |header|, root)
      && At(file, |header| + |root|, metadata)
      && At(file, |header| + |root| + |metadata|, leaves)
      && At(file, |header| + |root| + |metadata| + |leaves|, data)
      && |file| == |header| + |root| + |metadata| + |leaves| + |data|
  {
    hide At;
    AtHalves(header, root + (metadata + (leaves + data)));
    SectionsBehind(FileOf(header, root, metadata, leaves, data), |header|, root, metadata, leaves, data);
  }

  lemma SectionsBehind(file: Bytes, pos: nat, root: Bytes, metadata: Bytes, leaves: Bytes, data: Bytes)
    requires At(file, pos, root + (metadata + (leaves + data)))
    ensures At(file, pos, root)
    ensures At(file, pos + |root|, metadata)
    ensures At(file, pos + |root| + |metadata|, leaves)
    ensures At(file, pos + |root| + |metadata| + |leaves|, data)
  {
    hide At;
    AtConcat(file, pos, root, metadata + (leaves + data));
    AtConcat(file, pos + |root|, metadata, leaves + data);
    AtConcat(file, pos + |root| + |metadata|, leaves, data);
  }

  // Every directory of the archive is one a reader accepts: at most ten million
  // entries.
  predicate DirectoriesReadable(entries: nat, b: Built) {
    if b.leafSize == 0 then entries <= MAX_ENTRIES
    else b.leafCount <= MAX_ENTRIES && (b.leafSize <= MAX_ENTRIES || entries <= MAX_ENTRIES)
  }

  // Nothing outgrows its 32- or 64-bit field.
  ghost predicate ArchiveFits(write: Writer, p: Packed, b: Built, metadata: Bytes) {
    && Header.HEADER_LEN + |b.root| + |metadata| + |b.leaves| + |p.data| < TWO_TO_THE_64
    && |p.entries| < TWO_TO_THE_64
    && (b.leafSize > 0 ==> SplitFits(write, p.entries, b.leafSize, 0))
  }

  function ArchiveOf(p: Packed, b: Built, metadata: Bytes, addressedTiles: nat, about: About): Bytes {
    FileOf(Header.ToBytes(HeaderFor(p, b, metadata, addressedTiles, about)), b.root, metadata, b.leaves, p.data)
  }

  // What the packed entries bring to the lookup.
  lemma PackedShape(hash: Digest, rows: seq<Row>)
    requires Injective(hash) && Packable(rows)
    ensures var p := Pack(hash, rows); Sorted(p.entries) && OnlyTiles(p.entries) && OffsetsBelowMax(p.entries)
  {
    var p := Pack(hash, rows);
    PackLayout(hash, rows);
    PackStores(hash, rows);
    assert HighWater(p.entries) < TWO_TO_THE_64 - 1;
    RunsAreSorted(p.entries);
    forall i | 0 <= i < |p.entries| ensures p.entries[i].offset < TWO_TO_THE_64 - 1 {
      BelowHighWater(p.entries, i);
    }
  }

  lemma {:induction false} RunsAreSorted(es: seq<Entry>)
    requires RunsApart(es)
    ensures Sorted(es) && OnlyTiles(es)
  {
    forall i, j | 0 <= i < j < |es| ensures es[i].tileId <= es[j].tileId {
      RunsApartMeaning(es, i, j);
    }
    forall i | 0 <= i < |es| ensures es[i].runLength >= 1 {
      if i < |es| - 1 { RunsApartMeaning(es, i, i + 1); }
    }
  }

  // The data section holds the answer to every lookup.
  lemma AnswersInFile(hash: Digest, rows: seq<Row>, file: Bytes, dataOffset: nat, id: u64)
    requires Injective(hash) && Packable(rows)
    requires At(file, dataOffset, Pack(hash, rows).data) && |file| < TWO_TO_THE_64
    ensures FlatAnswer(file, dataOffset, Pack(hash, rows).entries, id) ==
      match RowFor(rows, id) { case None => Absent case Some(row) => Found(row.blob) }
  {
    var p := Pack(hash, rows);
    PackAnswers(hash, rows, id);
    PackStores(hash, rows);
    if RowFor(rows, id).Some? {
      var blob := RowFor(rows, id).value.blob;
      RowForIsStored(p, hash, rows, id);
      ReadPart(file, dataOffset, p.data, p.seen[hash(blob)].offset, blob);
    }
  }

  lemma HeaderOffsets(p: Packed, b: Built, metadata: Bytes, tiles: nat, about: About)
    requires Header.HEADER_LEN + |b.root| + |metadata| + |b.leaves| + |p.data| < TWO_TO_THE_64
    ensures var h := HeaderFor(p, b, metadata, tiles, about);
      && h.rootOffset == Header.HEADER_LEN && h.rootLength == |b.root|
      && h.leafOffset == Header.HEADER_LEN + |b.root| + |metadata|
      && h.dataOffset == Header.HEADER_LEN + |b.root| + |metadata| + |b.leaves|
      && h.metadataOffset == Header.HEADER_LEN + |b.root| && h.metadataLength == |metadata| && h.leafLength == |b.leaves|
  {
    hide Header.ToBytes, Header.FromBytes, At, ReadAt;
  }

  // Reading the root directory of an archive.
  lemma RootIsRead(read: Bytes -> Option<seq<Entry>>, p: Packed, b: Built, metadata: Bytes, tiles: nat, about: About)
    requires Header.HEADER_LEN + |b.root| + |metadata| + |b.leaves| + |p.data| < TWO_TO_THE_64
    ensures var file := ArchiveOf(p, b, metadata, tiles, about);
      var h := HeaderFor(p, b, metadata, tiles, about);
      && |file| < TWO_TO_THE_64
      && Header.FromBytes(file) == Header.Good(h)
      && ReadDirectory(read, file, h.rootOffset, h.rootLength) == read(b.root)
      && At(file, h.leafOffset, b.leaves) && At(file, h.dataOffset, p.data)
  {
    hide HeaderFor, FileOf;
    HeaderOffsets(p, b, metadata, tiles, about);
    SectionsAreRead(read, HeaderFor(p, b, metadata, tiles, about), b.root, metadata, b.leaves, p.data);
  }

  // Any header with the right offsets, in front of the sections.
  lemma SectionsAreRead(read: Bytes -> Option<seq<Entry>>, h: Header.Header, root: Bytes, metadata: Bytes, leaves: Bytes, data: Bytes)
    requires Header.HEADER_LEN + |root| + |metadata| + |leaves| + |data| < TWO_TO_THE_64
    requires h.rootOffset == Header.HEADER_LEN && h.rootLength == |root| && h.leafOffset == Header.HEADER_LEN + |root| + |metadata|
    requires h.dataOffset == Header.HEADER_LEN + |root| + |metadata| + |leaves|
    ensures var file := FileOf(Header.ToBytes(h), root, metadata, leaves, data);
      && |file| == h.dataOffset + |data| < TWO_TO_THE_64
      && Header.FromBytes(file) == Header.Good(h)
      && ReadDirectory(read, file, h.rootOffset, h.rootLength) == read(root)
      && At(file, h.leafOffset, leaves) && At(file, h.dataOffset, data)
  {
    hide Header.ToBytes, Header.FromBytes, At, ReadAt;
    Header.HeaderRoundTrip(h, root + (metadata + (leaves + data)));
    FileSections(Header.ToBytes(h), root, metadata, leaves, data);
    ReadWhole(FileOf(Header.ToBytes(h), root, metadata, leaves, data), Header.HEADER_LEN, root);
  }

  lemma ReadWhole(file: Bytes, offset: nat, piece: Bytes)
    requires At(file, offset, piece) && |file| < TWO_TO_THE_64
    ensures ReadAt(file, offset, |piece|) == Some(piece)
  {
    assert file[offset..offset + |piece|] == piece;
  }

  // The sections adjoin, from behind the header to the end of the file, and the
  // metadata reads back as it was given.
  lemma SectionsAdjoin(p: Packed, b: Built, metadata: Bytes, tiles: nat, about: About)
    requires Header.HEADER_LEN + |b.root| + |metadata| + |b.leaves| + |p.data| < TWO_TO_THE_64 && p.dataLen == |p.data|
    ensures var file := ArchiveOf(p, b, metadata, tiles, about);
      var h := HeaderFor(p, b, metadata, tiles, about);
      && Header.FromBytes(file) == Header.Good(h)
      && ReadAt(file, h.metadataOffset, h.metadataLength) == Some(metadata)
      && h.rootOffset == Header.HEADER_LEN && h.metadataOffset == h.rootOffset + h.rootLength
      && h.leafOffset == h.metadataOffset + h.metadataLength && h.dataOffset == h.leafOffset + h.leafLength
      && h.dataOffset + h.dataLength == |file|
  {
    HeaderOffsets(p, b, metadata, tiles, about);
    assert HeaderFor(p, b, metadata, tiles, about).dataLength == |p.data|;
    hide Header.ToBytes, Header.FromBytes, HeaderFor, FileOf, At, ReadAt;
    MetadataIsRead(HeaderFor(p, b, metadata, tiles, about), b.root, metadata, b.leaves, p.data);
  }

  lemma MetadataIsRead(h: Header.Header, root: Bytes, metadata: Bytes, leaves: Bytes, data: Bytes)
    requires Header.HEADER_LEN + |root| + |metadata| + |leaves| + |data| < TWO_TO_THE_64
    ensures var file := FileOf(Header.ToBytes(h), root, metadata, leaves, data);
      && Header.FromBytes(file) == Header.Good(h)
      && |file| == Header.HEADER_LEN + |root| + |metadata| + |leaves| + |data|
      && ReadAt(file, Header.HEADER_LEN + |root|, |metadata|) == Some(metadata)
  {
    hide Header.ToBytes, Header.FromBytes, At, ReadAt;
    Header.HeaderRoundTrip(h, root + (metadata + (leaves + data)));
    FileSections(Header.ToBytes(h), root, metadata, leaves, data);
    ReadWhole(FileOf(Header.ToBytes(h), root, metadata, leaves, data), Header.HEADER_LEN + |root|, metadata);
  }

  // The root section read back, and everything behind it: the flat answer.
  lemma SearchArchive(g: Gzip, p: Packed, b: Built, file: Bytes, at: Sections, id: u64)
    requires Lossless(g) && Sorted(p.entries) && OnlyTiles(p.entries) && OffsetsBelowMax(p.entries)
    requires BuildDirectories(DirectoryWriter(g), p.entries) == Some(b)
    requires DirectoriesReadable(|p.entries|, b) && |p.entries| < TWO_TO_THE_64
    requires b.leafSize > 0 ==> SplitFits(DirectoryWriter(g), p.entries, b.leafSize, 0)
    requires |file| < TWO_TO_THE_64 && At(file, at.leafOffset, b.leaves)
    ensures DirectoryReader(g)(b.root).Some?
    ensures Search(DirectoryReader(g), file, at, DirectoryReader(g)(b.root).value, id, 2)
      == FlatAnswer(file, at.dataOffset, p.entries, id)
  {
    var read, write := DirectoryReader(g), DirectoryWriter(g);
    BuiltShape(write, p.entries);
    hide BuildDirectories;
    if b.leafSize == 0 {
      ReadBackOne(g, p.entries);
      SearchFlat(read, file, at, p.entries, p.entries, id, 2);
    } else {
      SplitRootRead(g, p.entries, b);
      ReaderUndoesWriter(g, if b.leafSize <= |p.entries| then b.leafSize else |p.entries|);
      SearchSplit(read, write, file, at, p.entries, b.leafSize, id);
    }
  }

  lemma {:induction false} RootOffsets(write: Writer, es: seq<Entry>, size: nat, base: nat)
    requires size > 0 && SplitFits(write, es, size, base)
    ensures OffsetsBelowMax(SplitFrom(write, es, size, base).root)
    decreases |es|
  {
    if es != [] {
      var n := ChunkLen(es, size);
      SplitUnfolded(write, es, size, base);
      RootOffsets(write, es[n..], size, base + |write(es[..n])|);
    }
  }

  lemma {:induction false} LeafCountIs(write: Writer, es: seq<Entry>)
    requires BuildDirectories(write, es).Some? && BuildDirectories(write, es).value.leafSize > 0
    ensures var b := BuildDirectories(write, es).value;
      b.leafCount == |SplitFrom(write, es, b.leafSize, 0).root|
  {
    if |write(es)| > MAX_ROOT_DIR_LEN { TriedLeafCount(write, es, FIRST_LEAF_SIZE); }
  }

  // There are no more leaves than entries.
  lemma LeavesCounted(write: Writer, es: seq<Entry>)
    requires BuildDirectories(write, es).Some? && BuildDirectories(write, es).value.leafSize > 0
    ensures var b := BuildDirectories(write, es).value;
      b.leafCount == |SplitFrom(write, es, b.leafSize, 0).root| <= |es|
  {
    LeafCountIs(write, es);
    hide *;
    AtLeast(|es|, BuildDirectories(write, es).value.leafSize);
    SplitPointers(write, es, BuildDirectories(write, es).value.leafSize, 0, |es|);
  }

  lemma {:induction false} TriedLeafCount(write: Writer, es: seq<Entry>, size: nat)
    requires size > 0 && TrySizes(write, es, size).Some?
    ensures var b := TrySizes(write, es, size).value;
      b.leafSize > 0 && b.leafCount == |SplitFrom(write, es, b.leafSize, 0).root|
    decreases if |es| > size then |es| - size else 0
  {
    var h := SplitFrom(write, es, size, 0);
    if |write(h.root)| > MAX_ROOT_DIR_LEN && 2 * size <= |es| { TriedLeafCount(write, es, 2 * size); }
  }

  // What reading the root of a split gives.
  lemma SplitRootRead(g: Gzip, es: seq<Entry>, b: Built)
    requires Lossless(g) && |es| < TWO_TO_THE_64 && BuildDirectories(DirectoryWriter(g), es) == Some(b)
    requires b.leafSize > 0 && SplitFits(DirectoryWriter(g), es, b.leafSize, 0)
    ensures var h := SplitFrom(DirectoryWriter(g), es, b.leafSize, 0);
      && b.root == DirectoryWriter(g)(h.root) && b.leaves == h.leaves && b.leafCount == |h.root| <= |es| && OffsetsBelowMax(h.root)
      && DirectoryReader(g)(b.root) == if b.leafCount <= MAX_ENTRIES then Some(h.root) else None
  {
    hide SplitFrom, SplitFits, OffsetsBelowMax, DirectoryWriter, DirectoryReader, BuildDirectories;
    BuiltShape(DirectoryWriter(g), es);
    RootOffsets(DirectoryWriter(g), es, b.leafSize, 0);
    LeavesCounted(DirectoryWriter(g), es);
    ReadBackOne(g, SplitFrom(DirectoryWriter(g), es, b.leafSize, 0).root);
  }

  // Reading any id from a finished archive gives exactly the tile packed under
  // it, or nothing when there is none.
  lemma ArchiveReadsBack(g: Gzip, hash: Digest, rows: seq<Row>, b: Built, metadata: Bytes, tiles: nat, about: About, id: u64)
    requires Lossless(g) && Injective(hash) && Packable(rows)
    requires var p := Pack(hash, rows);
      && BuildDirectories(DirectoryWriter(g), p.entries) == Some(b)
      && ArchiveFits(DirectoryWriter(g), p, b, metadata)
      && DirectoriesReadable(|p.entries|, b)
    ensures ReadTile(DirectoryReader(g), ArchiveOf(Pack(hash, rows), b, metadata, tiles, about), id) ==
      match RowFor(rows, id) { case None => Absent case Some(row) => Found(row.blob) }
  {
    var p := Pack(hash, rows);
    var read := DirectoryReader(g);
    var file := ArchiveOf(p, b, metadata, tiles, about);
    var h := HeaderFor(p, b, metadata, tiles, about);
    var at := Sections(h.leafOffset, h.dataOffset);
    PackedShape(hash, rows);
    RootIsRead(read, p, b, metadata, tiles, about);
    SearchArchive(g, p, b, file, at, id);
    AnswersInFile(hash, rows, file, h.dataOffset, id);
  }

  // ------------------------------------------------------------- exactly when

  // A root directory past the reader's limit makes every read fail.
  lemma LongRootUnreadable(g: Gzip, p: Packed, b: Built, metadata: Bytes, tiles: nat, about: About, root: seq<Entry>, id: u64)
    requires Lossless(g) && b.root == DirectoryWriter(g)(root) && OffsetsBelowMax(root)
    requires MAX_ENTRIES < |root| < TWO_TO_THE_64
    requires Header.HEADER_LEN + |b.root| + |metadata| + |b.leaves| + |p.data| < TWO_TO_THE_64
    ensures ReadTile(DirectoryReader(g), ArchiveOf(p, b, metadata, tiles, about), id) == Broken
  {
    RootIsRead(DirectoryReader(g), p, b, metadata, tiles, about);
    ReadBackOne(g, root);
  }

  lemma FirstChunkIsFirstLeaf(es: seq<Entry>, size: nat)
    requires size > 0 && es != [] && RunsApart(es)
    ensures LeafFor(es, size, es[0].tileId) == es[..ChunkLen(es, size)]
  {
    var n := ChunkLen(es, size);
    if n < |es| { RunsApartMeaning(es, 0, n); }
  }

  // A leaf past the limit makes the reads that go through it fail.
  lemma LongLeafUnreadable(read: Bytes -> Option<seq<Entry>>, write: Writer, file: Bytes, at: Sections, es: seq<Entry>, size: nat, id: u64)
    requires size > 0 && es != [] && Sorted(es) && SplitFits(write, es, size, 0) && es[0].tileId <= id
    requires read(write(LeafFor(es, size, id))) == None
    requires |file| < TWO_TO_THE_64 && At(file, at.leafOffset, SplitFrom(write, es, size, 0).leaves)
    ensures Search(read, file, at, SplitFrom(write, es, size, 0).root, id, 2) == Broken
  {
    hide SplitFits, LeafFor, Sorted, SplitFrom;
    var h := SplitFrom(write, es, size, 0);
    RootPointsAtLeaf(write, es, size, 0, id);
    ReadPart(file, at.leafOffset, h.leaves, Find(h.root, id).value.offset, write(LeafFor(es, size, id)));
  }

  // Every entry of the archive starts with one of the tiles packed.
  lemma EntryIsATile(hash: Digest, rows: seq<Row>, k: nat)
    requires Injective(hash) && Packable(rows) && k < |Pack(hash, rows).entries|
    ensures RowFor(rows, Pack(hash, rows).entries[k].tileId).Some?
  {
    var es := Pack(hash, rows).entries;
    var id := es[k].tileId;
    PackLayout(hash, rows);
    PackAnswers(hash, rows, id);
    PackedShape(hash, rows);
    hide Pack, Packable;
    FindGivesLast(es, id);
    var i :| IsLastAt(es, id, i) && es[i] == Find(es, id).value;
    if k < i { RunsApartMeaning(es, k, i); }
    assert i == k;
  }

  lemma SomeEntries(hash: Digest, rows: seq<Row>)
    requires Injective(hash) && Packable(rows) && rows != []
    ensures Pack(hash, rows).entries != []
  {
    PackAnswers(hash, rows, 0);
  }

  // What the packed entries look like, and the archive they were built into.
  ghost predicate Assembled(g: Gzip, p: Packed, b: Built, metadata: Bytes) {
    && p.entries != [] && Sorted(p.entries) && RunsApart(p.entries) && OffsetsBelowMax(p.entries)
    && BuildDirectories(DirectoryWriter(g), p.entries) == Some(b)
    && ArchiveFits(DirectoryWriter(g), p, b, metadata)
  }

  lemma LongChunkUnread(g: Gzip, es: seq<Entry>, size: nat)
    requires Lossless(g) && OffsetsBelowMax(es) && MAX_ENTRIES < |es| < TWO_TO_THE_64 && size > MAX_ENTRIES
    ensures DirectoryReader(g)(DirectoryWriter(g)(es[..ChunkLen(es, size)])) == None
  {
    hide DirectoryWriter, DirectoryReader;
    assert OffsetsBelowMax(es[..ChunkLen(es, size)]);
    ReadBackOne(g, es[..ChunkLen(es, size)]);
  }

  lemma LongLeafFile(g: Gzip, p: Packed, b: Built, metadata: Bytes, tiles: nat, about: About)
    requires Lossless(g) && Assembled(g, p, b, metadata) && b.leafSize > 0 && b.leafCount <= MAX_ENTRIES
    requires b.leafSize > MAX_ENTRIES && |p.entries| > MAX_ENTRIES
    ensures ReadTile(DirectoryReader(g), ArchiveOf(p, b, metadata, tiles, about), p.entries[0].tileId) == Broken
  {
    var write, read, es := DirectoryWriter(g), DirectoryReader(g), p.entries;
    var h := HeaderFor(p, b, metadata, tiles, about);
    SplitRootRead(g, es, b);
    RootIsRead(read, p, b, metadata, tiles, about);
    LongChunkUnread(g, es, b.leafSize);
    FirstChunkIsFirstLeaf(es, b.leafSize);
    hide DirectoryWriter, DirectoryReader, OffsetsBelowMax, RunsApart, BuildDirectories, HeaderFor, ArchiveOf;
    hide Header.FromBytes, LeafFor, SplitFrom, SplitFits, Search;
    LongLeafUnreadable(read, write, ArchiveOf(p, b, metadata, tiles, about), Sections(h.leafOffset, h.dataOffset),
      es, b.leafSize, es[0].tileId);
  }

  lemma LongDirectoryFile(g: Gzip, p: Packed, b: Built, metadata: Bytes, tiles: nat, about: About)
    requires Lossless(g) && Assembled(g, p, b, metadata) && !DirectoriesReadable(|p.entries|, b)
    ensures ReadTile(DirectoryReader(g), ArchiveOf(p, b, metadata, tiles, about), p.entries[0].tileId) == Broken
  {
    var write := DirectoryWriter(g);
    BuiltShape(write, p.entries);
    hide BuildDirectories;
    if b.leafSize == 0 {
      LongRootUnreadable(g, p, b, metadata, tiles, about, p.entries, p.entries[0].tileId);
    } else if b.leafCount > MAX_ENTRIES {
      SplitRootRead(g, p.entries, b);
      LongRootUnreadable(g, p, b, metadata, tiles, about, SplitFrom(write, p.entries, b.leafSize, 0).root, p.entries[0].tileId);
    } else {
      LongLeafFile(g, p, b, metadata, tiles, about);
    }
  }

  // A reader rejects directories of more than ten million entries, so an archive
  // that needed one has tiles that cannot be read.
  lemma LongDirectoriesUnreadable(g: Gzip, hash: Digest, rows: seq<Row>, b: Built, metadata: Bytes, tiles: nat, about: About)
    returns (id: u64)
    requires Lossless(g) && Injective(hash) && Packable(rows) && rows != []
    requires var p := Pack(hash, rows);
      && BuildDirectories(DirectoryWriter(g), p.entries) == Some(b)
      && ArchiveFits(DirectoryWriter(g), p, b, metadata)
      && !DirectoriesReadable(|p.entries|, b)
    ensures RowFor(rows, id).Some?
    ensures ReadTile(DirectoryReader(g), ArchiveOf(Pack(hash, rows), b, metadata, tiles, about), id) == Broken
  {
    PackedShape(hash, rows);
    PackLayout(hash, rows);
    SomeEntries(hash, rows);
    EntryIsATile(hash, rows, 0);
    id := Pack(hash, rows).entries[0].tileId;
    LongDirectoryFile(g, Pack(hash, rows), b, metadata, tiles, about);
  }

  // ------------------------------------------------------------- the store

  // A row of the store: TMS rows count from the south.
  datatype Coord = Coord(z: u8, x: u32, tmsY: u32)

  type TileStore = map<Coord, Bytes>

  predicate OnGrid(c: Coord) {
    c.z <= 30 && c.x < Pow2(c.z) && c.tmsY < Pow2(c.z)
  }

  // `flip_y`
  function FlipY(c: Coord): Option<u32> {
    if c.z > 30 then None
    else if c.x >= Pow2(c.z) || c.tmsY >= Pow2(c.z) then None
    else
      Pow2Monotone(c.z, 30);
      Pow2Values();
      var y: u32 := Pow2(c.z) - 1 - c.tmsY;
      Some(y)
  }

  lemma IdFits(c: Coord)
    requires OnGrid(c)
    ensures Hilbert.InGrid(c.z, c.x, Pow2(c.z) - 1 - c.tmsY)
    ensures Hilbert.IdOf(c.z, c.x, Pow2(c.z) - 1 - c.tmsY) < TWO_TO_THE_64
  {
    hide Pow2, Hilbert.IdOf, Hilbert.TilesBelow;
    Hilbert.TilesBelowMonotone(c.z + 1, 32);
    Hilbert.TilesBelowFits(32);
  }

  function IdOfCoord(c: Coord): (id: u64)
    requires OnGrid(c)
  {
    IdFits(c);
    Hilbert.IdOf(c.z, c.x, Pow2(c.z) - 1 - c.tmsY)
  }

  lemma CoordIdsAreUnique(a: Coord, b: Coord)
    requires OnGrid(a) && OnGrid(b) && IdOfCoord(a) == IdOfCoord(b)
    ensures a == b
  {
    Hilbert.IdsAreUnique(a.z, a.x, Pow2(a.z) - 1 - a.tmsY, b.z, b.x, Pow2(b.z) - 1 - b.tmsY);
  }

  // Gzip magic number, and the deflate method behind it.
  predicate IsGzipped(data: Bytes) {
    |data| >= 3 && data[0] == 0x1f && data[1] == 0x8b && data[2] == 0x08
  }

  // Archives are uniformly gzipped.
  function Normalised(g: Gzip, data: Bytes): Bytes {
    if IsGzipped(data) then data else g.zip(data)
  }

  // What a client is owed for a stored tile: the tile itself if it begins as gzip does,
  // else something that inflates to it.
  ghost predicate Delivers(g: Gzip, stored: Bytes, sent: Bytes) {
    if |stored| >= 3 && stored[0] == 0x1f && stored[1] == 0x8b && stored[2] == 0x08 then sent == stored
    else g.unzip(sent) == Some(stored)
  }

  lemma NormalisedDelivers(g: Gzip, data: Bytes)
    requires Lossless(g)
    ensures Delivers(g, data, Normalised(g, data))
  {}

  datatype Listed = Listed(id: u64, coord: Coord)

  predicate IdBefore(a: Listed, b: Listed) { a.id < b.id }

  // `ordered.sort_by_key(id)`
  function SortById(ls: seq<Listed>): seq<Listed> { Sort(IdBefore, ls) }

  // The tiles still in the store, normalised, in the order listed.
  function RowsOf(g: Gzip, store: TileStore, ls: seq<Listed>): seq<Row> {
    if ls == [] then []
    else
      var l := ls[|ls| - 1];
      var before := RowsOf(g, store, ls[..|ls| - 1]);
      if l.coord in store then before + [Row(l.id, Normalised(g, store[l.coord]))] else before
  }

  function ListedOf(coords: seq<Coord>): (ls: seq<Listed>)
    requires forall i :: 0 <= i < |coords| ==> OnGrid(coords[i])
    ensures |ls| == |coords|
    ensures forall i :: 0 <= i < |coords| ==> ls[i] == Listed(IdOfCoord(coords[i]), coords[i])
  {
    seq(|coords|, i requires 0 <= i < |coords| => Listed(IdOfCoord(coords[i]), coords[i]))
  }

  ghost predicate DistinctIds(ls: seq<Listed>) {
    forall i, j :: 0 <= i < j < |ls| ==> ls[i].id != ls[j].id
  }

  ghost predicate StrictIds(ls: seq<Listed>) {
    forall i, j :: 0 <= i < j < |ls| ==> ls[i].id < ls[j].id
  }

  ghost predicate Distinct(coords: seq<Coord>) {
    forall i, j :: 0 <= i < j < |coords| ==> coords[i] != coords[j]
  }

  // Sorting keeps what is listed; distinct tiles have distinct ids, so the order
  // is strict.
  lemma SortIsStrict(ls: seq<Listed>)
    requires DistinctIds(ls)
    ensures StrictIds(SortById(ls)) && forall l :: l in SortById(ls) <==> l in ls
  {
    hide Sort;
    var sorted := SortById(ls);
    SortStrict(IdBefore, ls);
    forall i, j | 0 <= i < j < |sorted| ensures sorted[i].id < sorted[j].id { StrictPairs(IdBefore, sorted, i, j); }
    forall l ensures l in sorted <==> l in ls { SortHolds(IdBefore, ls, l); }
  }

  lemma ListedIdsDistinct(coords: seq<Coord>)
    requires Distinct(coords) && forall i :: 0 <= i < |coords| ==> OnGrid(coords[i])
    ensures DistinctIds(ListedOf(coords))
  {
    forall i, j | 0 <= i < j < |coords| ensures ListedOf(coords)[i].id != ListedOf(coords)[j].id {
      if IdOfCoord(coords[i]) == IdOfCoord(coords[j]) { CoordIdsAreUnique(coords[i], coords[j]); }
    }
  }

  lemma {:induction false} RowsAscend(g: Gzip, store: TileStore, ls: seq<Listed>)
    requires StrictIds(ls)
    ensures var rows := RowsOf(g, store, ls);
      && Ascending(rows)
      && (forall i :: 0 <= i < |rows| ==> ls != [] && rows[i].id <= ls[|ls| - 1].id)
  {
    if ls != [] { RowsAscend(g, store, ls[..|ls| - 1]); }
  }

  // The row under an id is the normalised tile listed under it.
  lemma {:induction false} RowUnder(g: Gzip, store: TileStore, ls: seq<Listed>, k: nat)
    requires StrictIds(ls) && k < |ls|
    ensures RowFor(RowsOf(g, store, ls), ls[k].id) ==
      if ls[k].coord in store then Some(Row(ls[k].id, Normalised(g, store[ls[k].coord]))) else None
  {
    var n := |ls| - 1;
    var before := RowsOf(g, store, ls[..n]);
    RowsAscend(g, store, ls[..n]);
    if k < n {
      RowUnder(g, store, ls[..n], k);
      if ls[n].coord in store { RowForPush(before, Row(ls[n].id, Normalised(g, store[ls[n].coord])), ls[k].id); }
    } else {
      NoRowUnder(g, store, ls[..n], ls[n].id);
      if ls[n].coord in store { RowForPush(before, Row(ls[n].id, Normalised(g, store[ls[n].coord])), ls[n].id); }
    }
  }

  lemma RowForPush(rows: seq<Row>, row: Row, id: u64)
    ensures RowFor(rows + [row], id) == if row.id == id then Some(row) else RowFor(rows, id)
  {
    assert (rows + [row])[..|rows|] == rows;
  }

  lemma {:induction false} NoRowUnder(g: Gzip, store: TileStore, ls: seq<Listed>, id: u64)
    requires forall i :: 0 <= i < |ls| ==> ls[i].id != id
    ensures RowFor(RowsOf(g, store, ls), id) == None
  {
    if ls != [] {
      var n := |ls| - 1;
      NoRowUnder(g, store, ls[..n], id);
      if ls[n].coord in store {
        RowForPush(RowsOf(g, store, ls[..n]), Row(ls[n].id, Normalised(g, store[ls[n].coord])), id);
      }
    }
  }

  // The rows an export of these coordinates packs.
  function ExportRows(g: Gzip, store: TileStore, coords: seq<Coord>): seq<Row>
    requires forall i :: 0 <= i < |coords| ==> OnGrid(coords[i])
  {
    RowsOf(g, store, SortById(ListedOf(coords)))
  }

  lemma ExportRowsAscend(g: Gzip, store: TileStore, coords: seq<Coord>)
    requires Distinct(coords) && forall i :: 0 <= i < |coords| ==> OnGrid(coords[i])
    ensures Ascending(ExportRows(g, store, coords))
  {
    ListedIdsDistinct(coords);
    SortIsStrict(ListedOf(coords));
    RowsAscend(g, store, SortById(ListedOf(coords)));
  }

  // What the export owes a client asking for tile z/x/y.
  function Wanted(g: Gzip, store: TileStore, coords: seq<Coord>, z: nat, x: int, y: int): TileRead
    requires Hilbert.InGrid(z, x, y) && z <= 31
  {
    Pow2Monotone(z, 31);
    Pow2Values();
    var c := Coord(z, x, Pow2(z) - 1 - y);
    if c in coords && c in store then Found(Normalised(g, store[c])) else Absent
  }

  lemma RowForTile(g: Gzip, store: TileStore, coords: seq<Coord>, z: nat, x: int, y: int, id: u64)
    requires Distinct(coords) && forall i :: 0 <= i < |coords| ==> OnGrid(coords[i])
    requires z <= 31 && Hilbert.InGrid(z, x, y) && id == Hilbert.IdOf(z, x, y)
    ensures Wanted(g, store, coords, z, x, y) ==
      match RowFor(ExportRows(g, store, coords), id) { case None => Absent case Some(row) => Found(row.blob) }
  {
    hide ExportRows, RowFor, ListedOf, Distinct, Normalised, Hilbert.IdOf;
    Pow2Monotone(z, 31);
    Pow2Values();
    var c := Coord(z, x, Pow2(z) - 1 - y);
    if c in coords {
      var i :| 0 <= i < |coords| && coords[i] == c;
      IdOfTile(c, y);
      ListedRow(g, store, coords, i);
    } else {
      NotListed(coords, z, x, y, id);
      UnlistedRow(g, store, coords, id);
    }
  }

  // There is a row for a tile exactly when it is listed and present, and the row holds
  // what a client is owed for it.
  lemma RowDelivers(g: Gzip, store: TileStore, coords: seq<Coord>, c: Coord)
    requires Lossless(g) && Distinct(coords) && forall i :: 0 <= i < |coords| ==> OnGrid(coords[i])
    requires OnGrid(c)
    ensures var found := RowFor(ExportRows(g, store, coords), IdOfCoord(c));
      && (found.Some? <==> c in coords && c in store)
      && (found.Some? ==> Delivers(g, store[c], found.value.blob))
  {
    var y := Pow2(c.z) - 1 - c.tmsY;
    IdOfTile(c, y);
    RowForTile(g, store, coords, c.z, c.x, y, IdOfCoord(c));
    WantedIs(g, store, coords, c);
    hide ExportRows, RowFor, Distinct, Normalised, Lossless, Delivers, OnGrid, IdOfCoord, Wanted, Hilbert.InGrid;
    if c in store { NormalisedDelivers(g, store[c]); }
  }

  lemma WantedIs(g: Gzip, store: TileStore, coords: seq<Coord>, c: Coord)
    requires OnGrid(c)
    ensures Wanted(g, store, coords, c.z, c.x, Pow2(c.z) - 1 - c.tmsY) ==
      if c in coords && c in store then Found(Normalised(g, store[c])) else Absent
  {}

  lemma IdOfTile(c: Coord, y: int)
    requires OnGrid(c) && y == Pow2(c.z) - 1 - c.tmsY
    ensures IdOfCoord(c) == Hilbert.IdOf(c.z, c.x, y)
  {}

  lemma SameIdSameCoord(c: Coord, z: nat, x: int, y: int)
    requires OnGrid(c) && z <= 31 && Hilbert.InGrid(z, x, y) && IdOfCoord(c) == Hilbert.IdOf(z, x, y)
    requires Pow2(z) < TWO_TO_THE_32
    ensures c == Coord(z, x, Pow2(z) - 1 - y)
  {
    hide Hilbert.IdOf;
    Hilbert.IdsAreUnique(z, x, y, c.z, c.x, Pow2(c.z) - 1 - c.tmsY);
  }

  lemma NotListed(coords: seq<Coord>, z: nat, x: int, y: int, id: u64)
    requires forall i :: 0 <= i < |coords| ==> OnGrid(coords[i])
    requires z <= 31 && Hilbert.InGrid(z, x, y) && id == Hilbert.IdOf(z, x, y)
    requires Pow2(z) < TWO_TO_THE_32 && Coord(z, x, Pow2(z) - 1 - y) !in coords
    ensures forall l :: l in ListedOf(coords) ==> l.id != id
  {
    hide IdOfCoord, OnGrid, Hilbert.IdOf, Hilbert.InGrid, Pow2;
    var ls := ListedOf(coords);
    forall i | 0 <= i < |ls| ensures ls[i].id != id {
      assert coords[i] in coords;
      if ls[i].id == id { SameIdSameCoord(coords[i], z, x, y); }
    }
  }

  lemma ListedRow(g: Gzip, store: TileStore, coords: seq<Coord>, i: nat)
    requires Distinct(coords) && forall i :: 0 <= i < |coords| ==> OnGrid(coords[i])
    requires i < |coords|
    ensures RowFor(ExportRows(g, store, coords), IdOfCoord(coords[i])) ==
      if coords[i] in store then Some(Row(IdOfCoord(coords[i]), Normalised(g, store[coords[i]]))) else None
  {
    var ls := ListedOf(coords);
    ListedIdsDistinct(coords);
    SortIsStrict(ls);
    hide Normalised, IdOfCoord, SortById, RowsOf;
    assert ls[i] in SortById(ls);
    var k :| 0 <= k < |SortById(ls)| && SortById(ls)[k] == ls[i];
    RowUnder(g, store, SortById(ls), k);
  }

  lemma UnlistedRow(g: Gzip, store: TileStore, coords: seq<Coord>, id: u64)
    requires Distinct(coords) && forall i :: 0 <= i < |coords| ==> OnGrid(coords[i])
    requires forall l :: l in ListedOf(coords) ==> l.id != id
    ensures RowFor(ExportRows(g, store, coords), id) == None
  {
    var ls := ListedOf(coords);
    ListedIdsDistinct(coords);
    SortIsStrict(ls);
    forall k | 0 <= k < |SortById(ls)| ensures SortById(ls)[k].id != id {
      assert SortById(ls)[k] in ls;
    }
    NoRowUnder(g, store, SortById(ls), id);
  }

  // Export, then read: for every tile of every zoom, exactly the store's tile in
  // gzipped form, and nothing where the store has none. It holds if and only if
  // no directory of the archive is longer than the reader's limit.
  lemma ExportThenRead(g: Gzip, hash: Digest, store: TileStore, coords: seq<Coord>, b: Built, metadata: Bytes,
      tiles: nat, about: About, z: nat, x: int, y: int, id: u64)
    requires Lossless(g) && Injective(hash)
    requires Distinct(coords) && forall i :: 0 <= i < |coords| ==> OnGrid(coords[i])
    requires var rows := ExportRows(g, store, coords);
      && FitsFields(rows)
      && (var p := Pack(hash, rows);
      && BuildDirectories(DirectoryWriter(g), p.entries) == Some(b)
      && ArchiveFits(DirectoryWriter(g), p, b, metadata)
      && DirectoriesReadable(|p.entries|, b))
    requires z <= 31 && Hilbert.InGrid(z, x, y) && id == Hilbert.IdOf(z, x, y)
    ensures ReadTile(DirectoryReader(g), ArchiveOf(Pack(hash, ExportRows(g, store, coords)), b, metadata, tiles, about), id)
      == Wanted(g, store, coords, z, x, y)
  {
    hide ExportRows, ArchiveOf, DirectoryReader, DirectoryWriter, DirectoriesReadable, ArchiveFits, BuildDirectories, ReadTile, Wanted;
    var rows := ExportRows(g, store, coords);
    ExportRowsAscend(g, store, coords);
    RowForTile(g, store, coords, z, x, y, id);
    ArchiveReadsBack(g, hash, rows, b, metadata, tiles, about, id);
  }
}
