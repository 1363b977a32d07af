// Reading one tile from an archive (src/pmtiles.rs): header, root directory, at
// most one leaf directory, tile data.

module Reader {
  import opened Options
  import opened Words
  import opened Varint
  import opened Directory
  import opened Split
  import opened Packing
  import Header
  import Hilbert

  // gzip, as far as the archive depends on it.
  datatype Gzip = Gzip(zip: Bytes -> Bytes, unzip: Bytes -> Option<Bytes>)

  ghost predicate Lossless(g: Gzip) {
    && (forall b: Bytes :: g.unzip(g.zip(b)) == Some(b))
    && (forall b: Bytes :: g.zip(b) != [])
  }

  function DirectoryWriter(g: Gzip): Writer {
    es => g.zip(Serialize(es))
  }

  function DirectoryReader(g: Gzip): Bytes -> Option<seq<Entry>> {
    raw =>
      match g.unzip(raw)
      case None => None
      case Some(bytes) =>
        match Parse(bytes)
        case Malformed(_) => None
        case Entries(es) => Some(es)
  }

  lemma ReadBackOne(g: Gzip, es: seq<Entry>)
    requires Lossless(g) && |es| < TWO_TO_THE_64 && OffsetsBelowMax(es)
    ensures DirectoryReader(g)(DirectoryWriter(g)(es)) == if |es| <= MAX_ENTRIES then Some(es) else None
  {
    DirectoryRoundTrip(es);
    ParseOfSerialize(es);
    assert g.unzip(g.zip(Serialize(es))) == Some(Serialize(es));
    assert OffsetsEncodable(es);
  }

  lemma ReaderUndoesWriter(g: Gzip, limit: nat)
    requires Lossless(g) && limit <= MAX_ENTRIES
    ensures Reads(DirectoryReader(g), DirectoryWriter(g), limit)
  {
    forall es: seq<Entry> | |es| <= limit && OffsetsBelowMax(es)
      ensures DirectoryReader(g)(DirectoryWriter(g)(es)) == Some(es)
    {
      ReadBackOne(g, es);
    }
  }

  // ------------------------------------------------------------- reading

  // `read_at`: bounds-checked against the file.
  function ReadAt(file: Bytes, offset: nat, length: nat): Option<Bytes> {
    if offset + length >= TWO_TO_THE_64 || offset + length > |file| then None
    else Some(file[offset..offset + length])
  }

  function ReadDirectory(read: Bytes -> Option<seq<Entry>>, file: Bytes, offset: nat, length: nat): Option<seq<Entry>> {
    match ReadAt(file, offset, length)
    case None => None
    case Some(raw) => read(raw)
  }

  datatype TileRead = Found(data: Bytes) | Absent | Broken

  // Where the two sections of an archive begin.
  datatype Sections = Sections(leafOffset: u64, dataOffset: u64)

  function ReadSpan(file: Bytes, dataOffset: nat, span: Span): TileRead {
    if dataOffset + span.offset >= TWO_TO_THE_64 then Broken
    else
      match ReadAt(file, dataOffset + span.offset, span.length)
      case None => Broken
      case Some(data) => Found(data)
  }

  // The loop of `get_tile`, from a directory on.
  function Search(read: Bytes -> Option<seq<Entry>>, file: Bytes, at: Sections, es: seq<Entry>, id: u64, rounds: nat): TileRead
    decreases rounds
  {
    if rounds == 0 then Absent
    else
      match Find(es, id)
      case None => Absent
      case Some(e) =>
        if e.runLength == 0 then
          if at.leafOffset + e.offset >= TWO_TO_THE_64 then Broken
          else
            match ReadDirectory(read, file, at.leafOffset + e.offset, e.length)
            case None => Broken
            case Some(leaf) => Search(read, file, at, leaf, id, rounds - 1)
        else if id >= End(e) then Absent
        else ReadSpan(file, at.dataOffset, SpanOf(e))
  }

  function ReadTile(read: Bytes -> Option<seq<Entry>>, file: Bytes, id: u64): TileRead {
    match Header.FromBytes(file)
    case Good(h) =>
      (match ReadDirectory(read, file, h.rootOffset, h.rootLength)
       case None => Broken
       case Some(root) => Search(read, file, Sections(h.leafOffset, h.dataOffset), root, id, 2))
    case _ => Broken
  }

  // `get_tile`: the tile's id, looked up.
  method GetTile(g: Gzip, file: Bytes, z: nat, x: u32, y: u32) returns (r: TileRead)
    requires z <= Hilbert.MAX_ZOOM
    ensures Pow2(z) > 0 && Hilbert.IdOf(z, x % Pow2(z), y % Pow2(z)) < TWO_TO_THE_64
    ensures r == ReadTile(DirectoryReader(g), file, Hilbert.IdOf(z, x % Pow2(z), y % Pow2(z)))
  {
    var wanted := Hilbert.TileId(z, x, y);
    r := GetById(g, file, wanted);
  }

  // What it does from there on.
  method GetById(g: Gzip, file: Bytes, wanted: u64) returns (r: TileRead)
    ensures r == ReadTile(DirectoryReader(g), file, wanted)
  {
    hide Header.FromBytes, ReadDirectory, DirectoryReader, Find, ReadAt;
    var read := DirectoryReader(g);
    var header := Header.FromBytes(file);
    if !header.Good? { return Broken; }
    var h := header.header;
    var root := ReadDirectory(read, file, h.rootOffset, h.rootLength);
    if root.None? { return Broken; }
    var entries := root.value;
    ghost var at := Sections(h.leafOffset, h.dataOffset);
    for round := 0 to 2
      invariant Search(read, file, at, entries, wanted, 2 - round) == ReadTile(read, file, wanted)
    {
      var found := Find(entries, wanted);
      if found.None? { return Absent; }
      var entry := found.value;
      if entry.runLength == 0 {
        if h.leafOffset + entry.offset >= TWO_TO_THE_64 { return Broken; }
        var leaf := ReadDirectory(read, file, h.leafOffset + entry.offset, entry.length);
        if leaf.None? { return Broken; }
        entries := leaf.value;
        continue;
      }
      if wanted >= entry.tileId + entry.runLength { return Absent; }
      r := ReadSpan(file, h.dataOffset, Span(entry.offset, entry.length));
      return;
    }
    return Absent;
  }

  // ------------------------------------------------------------- through the leaves

  // What a flat directory answers, read from the data section.
  function FlatAnswer(file: Bytes, dataOffset: nat, es: seq<Entry>, id: u64): TileRead {
    match Lookup(es, id)
    case None => Absent
    case Some(span) => ReadSpan(file, dataOffset, span)
  }

  ghost predicate OnlyTiles(es: seq<Entry>) {
    forall i :: 0 <= i < |es| ==> es[i].runLength >= 1
  }

  lemma FindTile(es: seq<Entry>, id: u64)
    requires OnlyTiles(es) && Find(es, id).Some?
    ensures Find(es, id).value.runLength >= 1
  {
    FindGivesLast(es, id);
  }

  lemma SearchFlat(read: Bytes -> Option<seq<Entry>>, file: Bytes, at: Sections, es: seq<Entry>, chunk: seq<Entry>, id: u64, rounds: nat)
    requires OnlyTiles(es) && Find(chunk, id) == Find(es, id) && rounds > 0
    ensures Search(read, file, at, chunk, id, rounds) == FlatAnswer(file, at.dataOffset, es, id)
  {
    if Find(es, id).Some? { FindTile(es, id); }
  }

  // The section of a file that holds a piece, and a part of that piece.
  lemma ReadPart(file: Bytes, section: nat, whole: Bytes, offset: nat, part: Bytes)
    requires At(file, section, whole) && At(whole, offset, part) && |file| < TWO_TO_THE_64
    ensures section + offset + |part| <= |file|
    ensures ReadAt(file, section + offset, |part|) == Some(part)
  {
    forall i | 0 <= i < |part| ensures file[section + offset + i] == part[i] {
      assert whole[offset + i] == part[i];
      assert file[section + (offset + i)] == whole[offset + i];
    }
    assert file[section + offset..section + offset + |part|] == part;
  }

  lemma {:induction false} LeafForShape(es: seq<Entry>, size: nat, id: u64)
    requires size > 0 && es != []
    ensures var chunk := LeafFor(es, size, id);
      && |chunk| <= size && |chunk| <= |es|
      && (OffsetsBelowMax(es) ==> OffsetsBelowMax(chunk))
    decreases |es|
  {
    var n := ChunkLen(es, size);
    if n < |es| && es[n].tileId <= id { LeafForShape(es[n..], size, id); }
  }

  // Reading through root and leaves answers what the flat list answers.
  lemma SearchSplit(read: Bytes -> Option<seq<Entry>>, write: Writer, file: Bytes, at: Sections, es: seq<Entry>, size: nat, id: u64)
    requires size > 0 && Sorted(es) && OnlyTiles(es) && OffsetsBelowMax(es) && SplitFits(write, es, size, 0)
    requires Reads(read, write, if size <= |es| then size else |es|)
    requires |file| < TWO_TO_THE_64 && At(file, at.leafOffset, SplitFrom(write, es, size, 0).leaves)
    ensures Search(read, file, at, SplitFrom(write, es, size, 0).root, id, 2) == FlatAnswer(file, at.dataOffset, es, id)
  {
    var h := SplitFrom(write, es, size, 0);
    if es == [] {
      assert h.root == [];
    } else if es[0].tileId > id {
      NothingInRest(write, es, size, 0, id);
      FindInSorted(es, id);
    } else {
      LeafForShape(es, size, id);
      SearchLeaf(read, write, file, at, es, size, id);
    }
  }

  lemma SearchLeaf(read: Bytes -> Option<seq<Entry>>, write: Writer, file: Bytes, at: Sections, es: seq<Entry>, size: nat, id: u64)
    requires size > 0 && es != [] && es[0].tileId <= id && Sorted(es) && OnlyTiles(es) && SplitFits(write, es, size, 0)
    requires read(write(LeafFor(es, size, id))) == Some(LeafFor(es, size, id))
    requires |file| < TWO_TO_THE_64 && At(file, at.leafOffset, SplitFrom(write, es, size, 0).leaves)
    ensures Search(read, file, at, SplitFrom(write, es, size, 0).root, id, 2) == FlatAnswer(file, at.dataOffset, es, id)
  {
    hide SplitFrom, SplitFits, LeafFor, Sorted, OnlyTiles, Search, FlatAnswer, Find, ReadAt;
    var h := SplitFrom(write, es, size, 0);
    RootPointsAtLeaf(write, es, size, 0, id);
    LeafAnswers(es, size, id);
    var chunk := LeafFor(es, size, id);
    ReadPart(file, at.leafOffset, h.leaves, Find(h.root, id).value.offset, write(chunk));
    SearchFlat(read, file, at, es, chunk, id, 1);
    SearchPointer(read, file, at, h.root, id, write(chunk), chunk);
  }

  lemma SearchPointer(read: Bytes -> Option<seq<Entry>>, file: Bytes, at: Sections, root: seq<Entry>, id: u64, leaf: Bytes, chunk: seq<Entry>)
    requires Find(root, id).Some? && Find(root, id).value.runLength == 0
    requires at.leafOffset + Find(root, id).value.offset < TWO_TO_THE_64
    requires ReadAt(file, at.leafOffset + Find(root, id).value.offset, Find(root, id).value.length) == Some(leaf)
    requires read(leaf) == Some(chunk)
    ensures Search(read, file, at, root, id, 2) == Search(read, file, at, chunk, id, 1)
  {}
}
