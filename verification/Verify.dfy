// The structural check of an archive (src/pmtiles.rs): which archives of an export
// pass it, and what passes it can be read.

module Verify {
  import opened Options
  import opened Words
  import opened Varint
  import opened Directory
  import opened Split
  import opened Packing
  import opened Reader
  import opened Export
  import Header

  // An entry's bytes lie in the tile data.
  predicate Inside(e: Entry, dataLength: nat) {
    e.offset + e.length < TWO_TO_THE_64 && e.offset + e.length <= dataLength
  }

  predicate AllInside(es: seq<Entry>, dataLength: nat) {
    forall i :: 0 <= i < |es| ==> Inside(es[i], dataLength)
  }

  datatype Archive = Archive(file: Bytes, leafOffset: nat, dataLength: nat)

  // The tile entries one root entry stands for; none when they do not check out.
  function EntryCount(read: Bytes -> Option<seq<Entry>>, a: Archive, e: Entry): Option<nat> {
    if e.runLength == 0 then
      if a.leafOffset + e.offset >= TWO_TO_THE_64 then None
      else
        match ReadDirectory(read, a.file, a.leafOffset + e.offset, e.length)
        case None => None
        case Some(leaf) => if AllInside(leaf, a.dataLength) then Some(|leaf|) else None
    else if Inside(e, a.dataLength) then Some(1) else None
  }

  function Plus(n: Option<nat>, m: Option<nat>): Option<nat> {
    if n.Some? && m.Some? then Some(n.value + m.value) else None
  }

  function RootCount(read: Bytes -> Option<seq<Entry>>, a: Archive, root: seq<Entry>): Option<nat> {
    if root == [] then Some(0) else Plus(EntryCount(read, a, root[0]), RootCount(read, a, root[1..]))
  }

  predicate Verified(read: Bytes -> Option<seq<Entry>>, file: Bytes) {
    match Header.FromBytes(file)
    case Good(h) =>
      && h.dataOffset + h.dataLength < TWO_TO_THE_64 && h.dataOffset + h.dataLength <= |file|
      && ReadDirectory(read, file, h.rootOffset, h.rootLength).Some?
      && RootCount(read, Archive(file, h.leafOffset, h.dataLength), ReadDirectory(read, file, h.rootOffset, h.rootLength).value)
        == Some(h.tileEntries)
    case _ => false
  }

  // `verify`
  method VerifyArchive(g: Gzip, file: Bytes) returns (ok: bool)
    ensures ok == Verified(DirectoryReader(g), file)
  {
    hide EntryCount, RootCount, ReadDirectory, DirectoryReader, Header.FromBytes;
    var read := DirectoryReader(g);
    var header := Header.FromBytes(file);
    if !header.Good? { return false; }
    var h := header.header;
    if h.dataOffset + h.dataLength >= TWO_TO_THE_64 || h.dataOffset + h.dataLength > |file| { return false; }
    var read0 := ReadDirectory(read, file, h.rootOffset, h.rootLength);
    if read0.None? { return false; }
    var root := read0.value;
    var a := Archive(file, h.leafOffset, h.dataLength);
    var tileEntries := 0;
    var i := 0;
    RootCountEnds(read, a, root);
    while i < |root|
      invariant 0 <= i <= |root|
      invariant RootCount(read, a, root) == Plus(Some(tileEntries), RootCount(read, a, root[i..]))
    {
      RootCountFrom(read, a, root, i);
      var count := CountEntry(g, a, root[i]);
      if count.None? { return false; }
      tileEntries := tileEntries + count.value;
      i := i + 1;
    }
    ok := tileEntries == h.tileEntries;
  }

  method CountEntry(g: Gzip, a: Archive, e: Entry) returns (count: Option<nat>)
    ensures count == EntryCount(DirectoryReader(g), a, e)
  {
    hide ReadDirectory, DirectoryReader, Inside;
    if e.runLength != 0 { return if Inside(e, a.dataLength) then Some(1) else None; }
    if a.leafOffset + e.offset >= TWO_TO_THE_64 { return None; }
    var leaf := ReadDirectory(DirectoryReader(g), a.file, a.leafOffset + e.offset, e.length);
    if leaf.None? { return None; }
    var i := 0;
    while i < |leaf.value|
      invariant 0 <= i <= |leaf.value|
      invariant forall j :: 0 <= j < i ==> Inside(leaf.value[j], a.dataLength)
    {
      if !Inside(leaf.value[i], a.dataLength) { return None; }
      i := i + 1;
    }
    count := Some(|leaf.value|);
  }

  // ------------------------------------------------------------- exports pass

  lemma {:induction false} FlatCount(read: Bytes -> Option<seq<Entry>>, a: Archive, es: seq<Entry>)
    requires OnlyTiles(es) && AllInside(es, a.dataLength)
    ensures RootCount(read, a, es) == Some(|es|)
  {
    if es != [] { FlatCount(read, a, es[1..]); }
  }

  lemma PointerCount(read: Bytes -> Option<seq<Entry>>, a: Archive, p: Entry, leaf: Bytes, chunk: seq<Entry>)
    requires p.runLength == 0 && p.length == |leaf| && a.leafOffset + p.offset < TWO_TO_THE_64
    requires ReadAt(a.file, a.leafOffset + p.offset, |leaf|) == Some(leaf) && read(leaf) == Some(chunk)
    requires AllInside(chunk, a.dataLength)
    ensures EntryCount(read, a, p) == Some(|chunk|)
  {}

  // A split whose leaves lie in the file, readable, with all entries inside the data.
  ghost predicate SplitInFile(read: Bytes -> Option<seq<Entry>>, write: Writer, a: Archive, es: seq<Entry>, size: nat, base: nat)
    requires size > 0
  {
    && SplitFits(write, es, size, base) && OffsetsBelowMax(es) && AllInside(es, a.dataLength)
    && Reads(read, write, if size <= |es| then size else |es|)
    && |a.file| < TWO_TO_THE_64 && At(a.file, a.leafOffset + base, SplitFrom(write, es, size, base).leaves)
  }

  lemma SplitStep(read: Bytes -> Option<seq<Entry>>, write: Writer, a: Archive, es: seq<Entry>, size: nat, base: nat)
    requires size > 0 && es != [] && SplitInFile(read, write, a, es, size, base)
    ensures var n := ChunkLen(es, size);
      var next := base + |write(es[..n])|;
      && 0 < n <= |es| && SplitInFile(read, write, a, es[n..], size, next)
      && EntryCount(read, a, FirstPointer(write, es, size, base)) == Some(n)
      && SplitFrom(write, es, size, base).root == [FirstPointer(write, es, size, base)] + SplitFrom(write, es[n..], size, next).root
  {
    hide SplitFits, OffsetsBelowMax, AllInside, Reads, At, SplitFrom, ChunkLen, FirstPointer, EntryCount;
    ChunkLenBounds(es, size);
    FirstLeafRead(write, a, es, size, base);
    FirstLeafCount(read, write, a, es, size, base);
    ChunkReads(read, write, es, size, a.dataLength);
  }

  lemma {:induction false} SplitCount(read: Bytes -> Option<seq<Entry>>, write: Writer, a: Archive, es: seq<Entry>, size: nat, base: nat)
    requires size > 0 && SplitInFile(read, write, a, es, size, base)
    ensures RootCount(read, a, SplitFrom(write, es, size, base).root) == Some(|es|)
    decreases |es|
  {
    hide *;
    if es == [] {
      NoRoot(read, write, a, es, size, base);
    } else {
      var n := ChunkLen(es, size);
      var next := base + |write(es[..n])|;
      SplitStep(read, write, a, es, size, base);
      SplitCount(read, write, a, es[n..], size, next);
      RootCountFirst(read, a, FirstPointer(write, es, size, base), SplitFrom(write, es[n..], size, next).root);
      PlusSome(n, |es[n..]|);
    }
  }

  lemma PlusSome(n: nat, m: nat)
    ensures Plus(Some(n), Some(m)) == Some(n + m)
  {}

  // The first leaf of a split, and the rest of the section behind it.
  lemma FirstLeafRead(write: Writer, a: Archive, es: seq<Entry>, size: nat, base: nat)
    requires size > 0 && es != [] && SplitFits(write, es, size, base)
    requires |a.file| < TWO_TO_THE_64 && At(a.file, a.leafOffset + base, SplitFrom(write, es, size, base).leaves)
    ensures var n := ChunkLen(es, size);
      var leaf := write(es[..n]);
      && SplitFrom(write, es, size, base).root
        == [FirstPointer(write, es, size, base)] + SplitFrom(write, es[n..], size, base + |leaf|).root
      && SplitFits(write, es[n..], size, base + |leaf|)
      && At(a.file, a.leafOffset + base + |leaf|, SplitFrom(write, es[n..], size, base + |leaf|).leaves)
      && ReadAt(a.file, a.leafOffset + base, |leaf|) == Some(leaf) && a.leafOffset + base < TWO_TO_THE_64
  {
    hide *;
    ChunkLenBounds(es, size);
    var n := ChunkLen(es, size);
    var leaf := write(es[..n]);
    SplitUnfolded(write, es, size, base);
    LeafIsFirst(a.file, a.leafOffset + base, leaf, SplitFrom(write, es[n..], size, base + |leaf|).leaves);
  }

  // The first pointer of a split counts its chunk.
  lemma FirstLeafCount(read: Bytes -> Option<seq<Entry>>, write: Writer, a: Archive, es: seq<Entry>, size: nat, base: nat)
    requires size > 0 && es != [] && SplitFits(write, es, size, base) && OffsetsBelowMax(es) && AllInside(es, a.dataLength)
    requires Reads(read, write, if size <= |es| then size else |es|)
    requires |a.file| < TWO_TO_THE_64 && At(a.file, a.leafOffset + base, SplitFrom(write, es, size, base).leaves)
    ensures EntryCount(read, a, FirstPointer(write, es, size, base)) == Some(ChunkLen(es, size))
  {
    hide *;
    ChunkLenBounds(es, size);
    var n := ChunkLen(es, size);
    FirstLeafRead(write, a, es, size, base);
    ChunkReads(read, write, es, size, a.dataLength);
    SplitUnfolded(write, es, size, base);
    PointerCount(read, a, FirstPointer(write, es, size, base), write(es[..n]), es[..n]);
  }

  lemma NoRoot(read: Bytes -> Option<seq<Entry>>, write: Writer, a: Archive, es: seq<Entry>, size: nat, base: nat)
    requires size > 0 && es == []
    ensures RootCount(read, a, SplitFrom(write, es, size, base).root) == Some(0)
  {}

  lemma ChunkLenBounds(es: seq<Entry>, size: nat)
    requires size > 0 && es != []
    ensures 0 < ChunkLen(es, size) <= |es|
  {}

  lemma RootCountFirst(read: Bytes -> Option<seq<Entry>>, a: Archive, first: Entry, rest: seq<Entry>)
    ensures RootCount(read, a, [first] + rest) == Plus(EntryCount(read, a, first), RootCount(read, a, rest))
  {
    hide EntryCount;
    assert ([first] + rest)[1..] == rest;
  }

  lemma RootCountFrom(read: Bytes -> Option<seq<Entry>>, a: Archive, root: seq<Entry>, i: nat)
    requires i < |root|
    ensures RootCount(read, a, root[i..]) == Plus(EntryCount(read, a, root[i]), RootCount(read, a, root[i + 1..]))
  {
    hide EntryCount;
    assert root[i..][1..] == root[i + 1..];
  }

  lemma RootCountEnds(read: Bytes -> Option<seq<Entry>>, a: Archive, root: seq<Entry>)
    ensures RootCount(read, a, root[0..]) == RootCount(read, a, root) && RootCount(read, a, root[|root|..]) == Some(0)
  {
    assert root[0..] == root;
  }

  lemma LeafIsFirst(file: Bytes, offset: nat, leaf: Bytes, rest: Bytes)
    requires At(file, offset, leaf + rest) && |file| < TWO_TO_THE_64
    ensures ReadAt(file, offset, |leaf|) == Some(leaf) && offset < TWO_TO_THE_64 && At(file, offset + |leaf|, rest)
  {
    hide At, ReadAt;
    AtConcat(file, offset, leaf, rest);
    ReadWholeLeaf(file, offset, leaf);
  }

  lemma ReadWholeLeaf(file: Bytes, offset: nat, piece: Bytes)
    requires At(file, offset, piece) && |file| < TWO_TO_THE_64
    ensures ReadAt(file, offset, |piece|) == Some(piece) && offset < TWO_TO_THE_64
  {
    ReadWhole(file, offset, piece);
  }

  lemma ChunkReads(read: Bytes -> Option<seq<Entry>>, write: Writer, es: seq<Entry>, size: nat, dataLength: nat)
    requires size > 0 && OffsetsBelowMax(es) && AllInside(es, dataLength) && Reads(read, write, if size <= |es| then size else |es|)
    ensures var n := ChunkLen(es, size);
      && read(write(es[..n])) == Some(es[..n]) && AllInside(es[..n], dataLength)
      && OffsetsBelowMax(es[n..]) && AllInside(es[n..], dataLength)
      && Reads(read, write, if size <= |es[n..]| then size else |es[n..]|)
  {
    var n := ChunkLen(es, size);
    assert OffsetsBelowMax(es[..n]);
  }

  lemma PackedInside(hash: Digest, rows: seq<Row>)
    requires Injective(hash) && Packable(rows)
    ensures var p := Pack(hash, rows); AllInside(p.entries, p.dataLen) && p.dataLen == |p.data|
  {
    PackLayout(hash, rows);
    PackStores(hash, rows);
    var p := Pack(hash, rows);
    forall i | 0 <= i < |p.entries| ensures Inside(p.entries[i], p.dataLen) { BelowHighWater(p.entries, i); }
  }

  // The root directory read back, checked.
  lemma BuiltCount(g: Gzip, p: Packed, b: Built, a: Archive)
    requires Lossless(g) && OnlyTiles(p.entries) && OffsetsBelowMax(p.entries) && AllInside(p.entries, a.dataLength)
    requires BuildDirectories(DirectoryWriter(g), p.entries) == Some(b)
    requires DirectoriesReadable(|p.entries|, b) && |p.entries| < TWO_TO_THE_64
    requires b.leafSize > 0 ==> SplitFits(DirectoryWriter(g), p.entries, b.leafSize, 0)
    requires |a.file| < TWO_TO_THE_64 && At(a.file, a.leafOffset, b.leaves)
    ensures DirectoryReader(g)(b.root).Some?
    ensures RootCount(DirectoryReader(g), a, DirectoryReader(g)(b.root).value) == Some(|p.entries|)
  {
    if b.leafSize == 0 {
      FlatRootCount(g, p, b, a);
    } else {
      SplitRootCount(g, p, b, a);
    }
  }

  lemma FlatRootCount(g: Gzip, p: Packed, b: Built, a: Archive)
    requires Lossless(g) && OnlyTiles(p.entries) && OffsetsBelowMax(p.entries) && AllInside(p.entries, a.dataLength)
    requires BuildDirectories(DirectoryWriter(g), p.entries) == Some(b) && b.leafSize == 0 && |p.entries| <= MAX_ENTRIES
    ensures DirectoryReader(g)(b.root).Some?
    ensures RootCount(DirectoryReader(g), a, DirectoryReader(g)(b.root).value) == Some(|p.entries|)
  {
    BuiltShape(DirectoryWriter(g), p.entries);
    hide BuildDirectories, DirectoryWriter, DirectoryReader, RootCount, Lossless, OffsetsBelowMax, OnlyTiles, AllInside;
    ReadBackOne(g, p.entries);
    FlatCount(DirectoryReader(g), a, p.entries);
  }

  lemma SplitRootCount(g: Gzip, p: Packed, b: Built, a: Archive)
    requires Lossless(g) && OffsetsBelowMax(p.entries) && AllInside(p.entries, a.dataLength) && b.leafSize > 0
    requires BuildDirectories(DirectoryWriter(g), p.entries) == Some(b)
    requires DirectoriesReadable(|p.entries|, b) && |p.entries| < TWO_TO_THE_64
    requires SplitFits(DirectoryWriter(g), p.entries, b.leafSize, 0)
    requires |a.file| < TWO_TO_THE_64 && At(a.file, a.leafOffset, b.leaves)
    ensures DirectoryReader(g)(b.root).Some?
    ensures RootCount(DirectoryReader(g), a, DirectoryReader(g)(b.root).value) == Some(|p.entries|)
  {
    hide BuildDirectories, DirectoryWriter, DirectoryReader, SplitFrom, SplitFits, RootCount, At, Lossless, OffsetsBelowMax, AllInside, Reads;
    SplitRootRead(g, p.entries, b);
    ReaderUndoesWriter(g, if b.leafSize <= |p.entries| then b.leafSize else |p.entries|);
    SplitCount(DirectoryReader(g), DirectoryWriter(g), a, p.entries, b.leafSize, 0);
  }

  // An archive whose directories can all be read back passes the check.
  lemma ReadableVerifies(g: Gzip, hash: Digest, rows: seq<Row>, b: Built, metadata: Bytes, tiles: nat, about: About)
    requires Lossless(g) && Injective(hash) && Packable(rows)
    requires var p := Pack(hash, rows);
      && BuildDirectories(DirectoryWriter(g), p.entries) == Some(b)
      && ArchiveFits(DirectoryWriter(g), p, b, metadata)
      && DirectoriesReadable(|p.entries|, b)
    ensures Verified(DirectoryReader(g), ArchiveOf(Pack(hash, rows), b, metadata, tiles, about))
  {
    var p := Pack(hash, rows);
    var read := DirectoryReader(g);
    var file := ArchiveOf(p, b, metadata, tiles, about);
    var h := HeaderFor(p, b, metadata, tiles, about);
    PackedShape(hash, rows);
    PackedInside(hash, rows);
    HeaderCounts(p, b, metadata, tiles, about);
    hide HeaderFor, ArchiveOf, Header.FromBytes, BuildDirectories, DirectoryReader, DirectoryWriter, DirectoriesReadable, Pack, Packable,
      OnlyTiles, OffsetsBelowMax, AllInside, SplitFits, RootCount, Sorted, Lossless;
    RootIsRead(read, p, b, metadata, tiles, about);
    BuiltCount(g, p, b, Archive(file, h.leafOffset, h.dataLength));
  }

  // A root directory the reader rejects fails it.
  lemma UnreadRootFails(read: Bytes -> Option<seq<Entry>>, p: Packed, b: Built, metadata: Bytes, tiles: nat, about: About)
    requires Header.HEADER_LEN + |b.root| + |metadata| + |b.leaves| + |p.data| < TWO_TO_THE_64 && read(b.root).None?
    ensures !Verified(read, ArchiveOf(p, b, metadata, tiles, about))
  {
    hide HeaderFor, ArchiveOf, Header.FromBytes, ReadDirectory, RootCount;
    RootIsRead(read, p, b, metadata, tiles, about);
  }

  // So does a first leaf it rejects.
  lemma UnreadLeafFails(read: Bytes -> Option<seq<Entry>>, write: Writer, a: Archive, es: seq<Entry>, size: nat)
    requires size > 0 && es != [] && SplitFits(write, es, size, 0)
    requires |a.file| < TWO_TO_THE_64 && At(a.file, a.leafOffset, SplitFrom(write, es, size, 0).leaves)
    requires read(write(es[..ChunkLen(es, size)])).None?
    ensures RootCount(read, a, SplitFrom(write, es, size, 0).root).None?
  {
    var n := ChunkLen(es, size);
    var first := FirstPointer(write, es, size, 0);
    FirstLeafRead(write, a, es, size, 0);
    SplitUnfolded(write, es, size, 0);
    RootCountFirst(read, a, first, SplitFrom(write, es[n..], size, |write(es[..n])|).root);
    hide SplitFrom, SplitFits, FirstPointer, At, ReadAt, RootCount, ChunkLen;
    assert ReadDirectory(read, a.file, a.leafOffset + first.offset, first.length).None?;
  }

  lemma LongLeafFails(g: Gzip, p: Packed, b: Built, metadata: Bytes, tiles: nat, about: About)
    requires Lossless(g) && Assembled(g, p, b, metadata) && 0 < b.leafCount <= MAX_ENTRIES
    requires b.leafSize > MAX_ENTRIES && |p.entries| > MAX_ENTRIES
    ensures !Verified(DirectoryReader(g), ArchiveOf(p, b, metadata, tiles, about))
  {
    var write, read, es := DirectoryWriter(g), DirectoryReader(g), p.entries;
    var file := ArchiveOf(p, b, metadata, tiles, about);
    var h := HeaderFor(p, b, metadata, tiles, about);
    SplitRootRead(g, es, b);
    RootIsRead(read, p, b, metadata, tiles, about);
    LongChunkUnread(g, es, b.leafSize);
    hide DirectoryWriter, DirectoryReader, OffsetsBelowMax, RunsApart, Sorted, BuildDirectories, HeaderFor, ArchiveOf, Header.FromBytes,
      SplitFrom, SplitFits, RootCount, At, ReadDirectory;
    UnreadLeafFails(read, write, Archive(file, h.leafOffset, h.dataLength), es, b.leafSize);
  }

  lemma LongDirectoryFails(g: Gzip, p: Packed, b: Built, metadata: Bytes, tiles: nat, about: About)
    requires Lossless(g) && Assembled(g, p, b, metadata) && !DirectoriesReadable(|p.entries|, b)
    ensures !Verified(DirectoryReader(g), ArchiveOf(p, b, metadata, tiles, about))
  {
    var write, read := DirectoryWriter(g), DirectoryReader(g);
    BuiltShape(write, p.entries);
    if b.leafSize == 0 {
      ReadBackOne(g, p.entries);
      UnreadRootFails(read, p, b, metadata, tiles, about);
    } else {
      SplitRootRead(g, p.entries, b);
      if b.leafCount > MAX_ENTRIES {
        UnreadRootFails(read, p, b, metadata, tiles, about);
      } else {
        LongLeafFails(g, p, b, metadata, tiles, about);
      }
    }
  }

  lemma NoEntriesReadable(write: Writer, b: Built)
    requires BuildDirectories(write, []) == Some(b)
    ensures DirectoriesReadable(0, b)
  {
    if b.leafSize > 0 { LeavesCounted(write, []); }
  }

  // The archive of an export passes its own check exactly when none of its directories
  // is past the reader's limit.
  lemma ExportVerifies(g: Gzip, hash: Digest, rows: seq<Row>, b: Built, metadata: Bytes, tiles: nat, about: About)
    requires Lossless(g) && Injective(hash) && Packable(rows)
    requires var p := Pack(hash, rows);
      BuildDirectories(DirectoryWriter(g), p.entries) == Some(b) && ArchiveFits(DirectoryWriter(g), p, b, metadata)
    ensures Verified(DirectoryReader(g), ArchiveOf(Pack(hash, rows), b, metadata, tiles, about))
      <==> DirectoriesReadable(|Pack(hash, rows).entries|, b)
  {
    var p := Pack(hash, rows);
    if DirectoriesReadable(|p.entries|, b) {
      ReadableVerifies(g, hash, rows, b, metadata, tiles, about);
    } else {
      PackedShape(hash, rows);
      PackLayout(hash, rows);
      hide Pack, Verified, BuildDirectories, ArchiveFits, ArchiveOf, RunsApart, Sorted, OffsetsBelowMax, Packable, DirectoriesReadable;
      if p.entries == [] { NoEntriesReadable(DirectoryWriter(g), b); }
      LongDirectoryFails(g, p, b, metadata, tiles, about);
    }
  }

  // The count in the header is checked: the same sections under another one fail.
  lemma WrongCountFails(g: Gzip, hash: Digest, rows: seq<Row>, b: Built, metadata: Bytes, tiles: nat, about: About, count: u64)
    requires Lossless(g) && Injective(hash) && Packable(rows)
    requires var p := Pack(hash, rows);
      && BuildDirectories(DirectoryWriter(g), p.entries) == Some(b)
      && ArchiveFits(DirectoryWriter(g), p, b, metadata)
      && DirectoriesReadable(|p.entries|, b)
    ensures var p := Pack(hash, rows);
      var h := HeaderFor(p, b, metadata, tiles, about).(tileEntries := count);
      Verified(DirectoryReader(g), FileOf(Header.ToBytes(h), b.root, metadata, b.leaves, p.data)) <==> count == |p.entries|
  {
    var p := Pack(hash, rows);
    var read := DirectoryReader(g);
    var h := HeaderFor(p, b, metadata, tiles, about).(tileEntries := count);
    var file := FileOf(Header.ToBytes(h), b.root, metadata, b.leaves, p.data);
    PackedShape(hash, rows);
    PackedInside(hash, rows);
    HeaderOffsets(p, b, metadata, tiles, about);
    HeaderCounts(p, b, metadata, tiles, about);
    hide HeaderFor, Header.ToBytes, Header.FromBytes, BuildDirectories, DirectoryReader, DirectoryWriter, DirectoriesReadable, Pack, Packable,
      OnlyTiles, OffsetsBelowMax, AllInside, SplitFits, RootCount, Sorted, Lossless, At, ReadDirectory, FileOf, Injective;
    SectionsAreRead(read, h, b.root, metadata, b.leaves, p.data);
    BuiltCount(g, p, b, Archive(file, h.leafOffset, h.dataLength));
  }

  lemma HeaderCounts(p: Packed, b: Built, metadata: Bytes, tiles: nat, about: About)
    requires |p.entries| < TWO_TO_THE_64
    ensures var h := HeaderFor(p, b, metadata, tiles, about); h.tileEntries == |p.entries| && h.dataLength == p.dataLen
  {}

  // ------------------------------------------------------------- what passes can be read

  lemma {:induction false} CountedEntry(read: Bytes -> Option<seq<Entry>>, a: Archive, root: seq<Entry>, i: nat)
    requires RootCount(read, a, root).Some? && i < |root|
    ensures EntryCount(read, a, root[i]).Some?
  {
    if i > 0 { CountedEntry(read, a, root[1..], i - 1); }
  }

  // A pointer whose directory is not there.
  predicate Dangles(read: Bytes -> Option<seq<Entry>>, a: Archive, p: Entry) {
    p.runLength == 0
    && (a.leafOffset + p.offset >= TWO_TO_THE_64 || ReadDirectory(read, a.file, a.leafOffset + p.offset, p.length).None?)
  }

  // In the leaf responsible for an id, the entry responsible for it is such a pointer.
  predicate NestedDangles(read: Bytes -> Option<seq<Entry>>, a: Archive, root: seq<Entry>, id: u64) {
    match Find(root, id)
    case None => false
    case Some(p) =>
      p.runLength == 0 && match ReadDirectory(read, a.file, a.leafOffset + p.offset, p.length)
        case None => false
        case Some(leaf) => Find(leaf, id).Some? && Dangles(read, a, Find(leaf, id).value)
  }

  lemma InsideReads(file: Bytes, dataOffset: nat, dataLength: nat, e: Entry)
    requires Inside(e, dataLength) && dataOffset + dataLength < TWO_TO_THE_64 && dataOffset + dataLength <= |file|
    ensures ReadSpan(file, dataOffset, SpanOf(e)).Found?
  {}

  lemma LeafSearch(read: Bytes -> Option<seq<Entry>>, a: Archive, at: Sections, leaf: seq<Entry>, id: u64)
    requires at.dataOffset + a.dataLength < TWO_TO_THE_64 && at.dataOffset + a.dataLength <= |a.file| && at.leafOffset == a.leafOffset
    requires AllInside(leaf, a.dataLength)
    ensures Search(read, a.file, at, leaf, id, 1).Broken? <==> Find(leaf, id).Some? && Dangles(read, a, Find(leaf, id).value)
  {
    FindGivesLast(leaf, id);
    if Find(leaf, id).Some? {
      var i :| IsLastAt(leaf, id, i) && leaf[i] == Find(leaf, id).value;
      InsideReads(a.file, at.dataOffset, a.dataLength, leaf[i]);
    }
  }

  // A search from a root all of whose entries check out.
  lemma RootSearch(read: Bytes -> Option<seq<Entry>>, a: Archive, at: Sections, root: seq<Entry>, id: u64)
    requires at.dataOffset + a.dataLength < TWO_TO_THE_64 && at.dataOffset + a.dataLength <= |a.file| && at.leafOffset == a.leafOffset
    requires RootCount(read, a, root).Some?
    ensures Search(read, a.file, at, root, id, 2).Broken? <==> NestedDangles(read, a, root, id)
  {
    hide RootCount, ReadDirectory, Find, ReadSpan, Inside, Dangles;
    FindGivesLast(root, id);
    if Find(root, id).Some? {
      var i :| IsLastAt(root, id, i) && root[i] == Find(root, id).value;
      CountedEntry(read, a, root, i);
      if root[i].runLength == 0 {
        LeafSearch(read, a, at, ReadDirectory(read, a.file, a.leafOffset + root[i].offset, root[i].length).value, id);
      } else {
        InsideReads(a.file, at.dataOffset, a.dataLength, root[i]);
      }
    }
  }

  // Reading a tile of an archive that passes the check runs into a broken part exactly
  // when the tile's leaf sends it to a further directory that is not there: such nested
  // pointers are all the check leaves unread.
  lemma VerifiedIsReadable(read: Bytes -> Option<seq<Entry>>, file: Bytes, id: u64)
    requires Verified(read, file)
    ensures var h := Header.FromBytes(file).header;
      ReadTile(read, file, id).Broken? <==>
        NestedDangles(read, Archive(file, h.leafOffset, h.dataLength), ReadDirectory(read, file, h.rootOffset, h.rootLength).value, id)
  {
    hide Header.FromBytes, ReadDirectory, RootCount, Search, NestedDangles;
    var h := Header.FromBytes(file).header;
    var root := ReadDirectory(read, file, h.rootOffset, h.rootLength).value;
    RootSearch(read, Archive(file, h.leafOffset, h.dataLength), Sections(h.leafOffset, h.dataOffset), root, id);
  }
}
