// The export loop (src/pmtiles.rs): tiles in id order become directory entries,
// equal neighbours collapse into runs, and each distinct blob is staged once.

module Packing {
  import opened Options
  import opened Words
  import opened Varint
  import opened Directory
  import opened Split

  // One tile, ready to be written: its id and its gzipped bytes.
  datatype Row = Row(id: u64, blob: Bytes)

  // Where a blob lies in the tile data.
  datatype Span = Span(offset: u64, length: u32)

  // `entries`, `seen`, `data_len` and the staged bytes.
  datatype Packed = Packed(entries: seq<Entry>, seen: map<Bytes, Span>, dataLen: u64, data: Bytes)

  const EMPTY := Packed([], map[], 0, [])

  // SHA-256, as far as the export depends on it.
  type Digest = Bytes -> Bytes

  ghost predicate Injective(hash: Digest) {
    forall a: Bytes, b: Bytes :: hash(a) == hash(b) ==> a == b
  }

  function SpanOf(e: Entry): Span { Span(e.offset, e.length) }

  function End(e: Entry): int { e.tileId + e.runLength }

  // The tile right behind the last run, with the same content.
  predicate Extends(p: Packed, id: u64, h: Bytes) {
    && p.entries != []
    && var last := p.entries[|p.entries| - 1];
    Wrap64(End(last)) == id && h in p.seen && p.seen[h] == SpanOf(last)
  }

  function Longer(es: seq<Entry>): (r: seq<Entry>)
    requires es != []
    ensures |r| == |es|
  {
    var n := |es| - 1;
    es[..n] + [es[n].(runLength := Wrap32(es[n].runLength + 1))]
  }

  function PackRow(hash: Digest, p: Packed, row: Row): Packed {
    var h := hash(row.blob);
    if Extends(p, row.id, h) then p.(entries := Longer(p.entries))
    else if h in p.seen then
      p.(entries := p.entries + [Entry(row.id, p.seen[h].offset, p.seen[h].length, 1)])
    else
      var span := Span(p.dataLen, Wrap32(|row.blob|));
      Packed(p.entries + [Entry(row.id, span.offset, span.length, 1)],
        p.seen[h := span], Wrap64(p.dataLen + span.length), p.data + row.blob)
  }

  function Pack(hash: Digest, rows: seq<Row>): Packed {
    if rows == [] then EMPTY
    else PackRow(hash, Pack(hash, rows[..|rows| - 1]), rows[|rows| - 1])
  }

  // ------------------------------------------------------------- the input

  function TotalBytes(rows: seq<Row>): nat {
    if rows == [] then 0 else TotalBytes(rows[..|rows| - 1]) + |rows[|rows| - 1].blob|
  }

  ghost predicate Ascending(rows: seq<Row>) {
    forall i, j :: 0 <= i < j < |rows| ==> rows[i].id < rows[j].id
  }

  // Gzipped blobs, never empty, that fit the fields of the format: blob lengths and runs are 32 bits, offsets 64.
  ghost predicate FitsFields(rows: seq<Row>) {
    && |rows| < TWO_TO_THE_32
    && TotalBytes(rows) < TWO_TO_THE_64 - 1
    && forall i :: 0 <= i < |rows| ==> 0 < |rows[i].blob| < TWO_TO_THE_32
  }

  ghost predicate Packable(rows: seq<Row>) {
    Ascending(rows) && FitsFields(rows)
  }

  lemma PackablePrefix(rows: seq<Row>)
    requires Packable(rows) && rows != []
    ensures var init := rows[..|rows| - 1];
      && Packable(init)
      && TotalBytes(init) + |rows[|rows| - 1].blob| == TotalBytes(rows)
      && (init != [] ==> init[|init| - 1].id < rows[|rows| - 1].id)
      && 0 < |rows[|rows| - 1].blob| < TWO_TO_THE_32
  {}

  // ------------------------------------------------------------- data

  predicate Stored(p: Packed, hash: Digest, blob: Bytes) {
    && hash(blob) in p.seen
    && p.seen[hash(blob)].length == |blob|
    && At(p.data, p.seen[hash(blob)].offset, blob)
  }

  lemma StoredStays(p: Packed, hash: Digest, row: Row, blob: Bytes)
    requires Stored(p, hash, blob)
    ensures Stored(PackRow(hash, p, row), hash, blob)
    ensures PackRow(hash, p, row).seen[hash(blob)] == p.seen[hash(blob)]
  {}

  lemma RowIsStored(p: Packed, hash: Digest, row: Row)
    requires Injective(hash) && p.dataLen == |p.data| && |row.blob| < TWO_TO_THE_32
    requires hash(row.blob) in p.seen ==> Stored(p, hash, row.blob)
    ensures Stored(PackRow(hash, p, row), hash, row.blob)
  {
    if hash(row.blob) !in p.seen { AtHalves(p.data, row.blob); }
  }

  // Every digest seen is that of a packed row.
  ghost predicate SeenFrom(p: Packed, hash: Digest, rows: seq<Row>) {
    forall h :: h in p.seen ==> exists i :: 0 <= i < |rows| && hash(rows[i].blob) == h
  }

  ghost predicate AllStored(p: Packed, hash: Digest, rows: seq<Row>) {
    forall i :: 0 <= i < |rows| ==> Stored(p, hash, rows[i].blob)
  }

  // Every blob lies whole in the data, at the place its digest is filed under.
  lemma {:induction false} PackStores(hash: Digest, rows: seq<Row>)
    requires Injective(hash) && Packable(rows)
    ensures var p := Pack(hash, rows);
      && p.dataLen == |p.data| <= TotalBytes(rows)
      && AllStored(p, hash, rows) && SeenFrom(p, hash, rows)
  {
    if rows != [] {
      var n := |rows| - 1;
      var init, row := rows[..n], rows[n];
      PackablePrefix(rows);
      assert rows == init + [row];
      hide PackRow, AllStored, SeenFrom, Packable, Injective;
      PackStores(hash, init);
      PackStoresStep(hash, Pack(hash, init), init, row);
    }
  }

  lemma PackStoresStep(hash: Digest, p: Packed, init: seq<Row>, row: Row)
    requires Injective(hash) && |row.blob| < TWO_TO_THE_32
    requires p.dataLen == |p.data| && |p.data| + |row.blob| < TWO_TO_THE_64 - 1
    requires AllStored(p, hash, init) && SeenFrom(p, hash, init)
    ensures var p' := PackRow(hash, p, row);
      && p'.dataLen == |p'.data| <= |p.data| + |row.blob|
      && AllStored(p', hash, init + [row]) && SeenFrom(p', hash, init + [row])
  {
    var p' := PackRow(hash, p, row);
    var rows := init + [row];
    if hash(row.blob) in p.seen {
      var i :| 0 <= i < |init| && hash(init[i].blob) == hash(row.blob);
      assert Stored(p, hash, init[i].blob);
    }
    RowIsStored(p, hash, row);
    forall i | 0 <= i < |rows| ensures Stored(p', hash, rows[i].blob) {
      if i < |init| { StoredStays(p, hash, row, init[i].blob); }
    }
    forall h | h in p'.seen ensures exists i :: 0 <= i < |rows| && hash(rows[i].blob) == h {
      if h in p.seen {
        var i :| 0 <= i < |init| && hash(init[i].blob) == h;
        assert rows[i] == init[i];
      } else {
        assert rows[|init|] == row;
      }
    }
  }

  // ------------------------------------------------------------- lookup

  // What a flat directory answers for an id.
  function Lookup(es: seq<Entry>, id: u64): Option<Span> {
    match Find(es, id)
    case None => None
    case Some(e) => if id >= End(e) then None else Some(SpanOf(e))
  }

  function RowFor(rows: seq<Row>, id: u64): Option<Row> {
    if rows == [] then None
    else if rows[|rows| - 1].id == id then Some(rows[|rows| - 1])
    else RowFor(rows[..|rows| - 1], id)
  }

  lemma {:induction false} RowForMeaning(rows: seq<Row>, id: u64)
    requires Ascending(rows)
    ensures RowFor(rows, id).None? <==> forall i :: 0 <= i < |rows| ==> rows[i].id != id
    ensures forall i :: 0 <= i < |rows| && rows[i].id == id ==> RowFor(rows, id) == Some(rows[i])
    ensures RowFor(rows, id).Some? ==> RowFor(rows, id).value in rows && RowFor(rows, id).value.id == id
  {
    if rows != [] { RowForMeaning(rows[..|rows| - 1], id); }
  }

  function Answer(p: Packed, hash: Digest, row: Option<Row>): Option<Span> {
    match row
    case None => None
    case Some(r) => if hash(r.blob) in p.seen then Some(p.seen[hash(r.blob)]) else None
  }

  // The last run ends right behind the last tile.
  predicate EndsAt(es: seq<Entry>, rows: seq<Row>) {
    && (es == [] <==> rows == [])
    && (es != [] ==>
      && 1 <= es[|es| - 1].runLength <= |rows|
      && End(es[|es| - 1]) == rows[|rows| - 1].id + 1)
  }

  lemma LookupPush(es: seq<Entry>, e: Entry, id: u64)
    ensures Lookup(es + [e], id) ==
      if e.tileId > id then Lookup(es, id) else if id >= End(e) then None else Some(SpanOf(e))
  {
    assert (es + [e])[..|es|] == es;
  }

  lemma LookupLonger(es: seq<Entry>, id: u64)
    requires es != [] && es[|es| - 1].runLength + 1 < TWO_TO_THE_32
    ensures Lookup(Longer(es), id) ==
      if End(es[|es| - 1]) == id then Some(SpanOf(es[|es| - 1])) else Lookup(es, id)
  {
    var n := |es| - 1;
    assert es == es[..n] + [es[n]];
    LookupPush(es[..n], es[n], id);
    LookupPush(es[..n], es[n].(runLength := es[n].runLength + 1), id);
  }

  // What the lookup must answer for one id, given what it answered before the row.
  lemma PackAnswersStep(hash: Digest, p: Packed, init: seq<Row>, row: Row, id: u64)
    requires EndsAt(p.entries, init) && |init| + 1 < TWO_TO_THE_32
    requires init != [] ==> init[|init| - 1].id < row.id
    requires RowFor(init, id).Some? ==> hash(RowFor(init, id).value.blob) in p.seen
    requires id >= row.id ==> RowFor(init, id).None?
    requires Lookup(p.entries, id) == Answer(p, hash, RowFor(init, id))
    ensures var p' := PackRow(hash, p, row);
      && EndsAt(p'.entries, init + [row])
      && Lookup(p'.entries, id) == Answer(p', hash, if id == row.id then Some(row) else RowFor(init, id))
  {
    hide Lookup, RowFor, Longer;
    assert (init + [row])[|init|] == row;
    if Extends(p, row.id, hash(row.blob)) {
      LookupLonger(p.entries, id);
      LongerEnds(p.entries);
    } else {
      PackRowPushes(hash, p, row);
      LookupPush(p.entries, PushedEntry(hash, p, row), id);
    }
  }

  lemma LongerEnds(es: seq<Entry>)
    requires es != [] && es[|es| - 1].runLength + 1 < TWO_TO_THE_32
    ensures Longer(es) != [] && Longer(es)[|Longer(es)| - 1] == es[|es| - 1].(runLength := es[|es| - 1].runLength + 1)
  {}

  function PushedEntry(hash: Digest, p: Packed, row: Row): Entry {
    var span := if hash(row.blob) in p.seen then p.seen[hash(row.blob)] else Span(p.dataLen, Wrap32(|row.blob|));
    Entry(row.id, span.offset, span.length, 1)
  }

  lemma PackRowPushes(hash: Digest, p: Packed, row: Row)
    requires !Extends(p, row.id, hash(row.blob))
    ensures var p' := PackRow(hash, p, row);
      var h := hash(row.blob);
      && p'.entries == p.entries + [PushedEntry(hash, p, row)]
      && h in p'.seen && SpanOf(PushedEntry(hash, p, row)) == p'.seen[h]
      && (forall k :: k in p.seen ==> k in p'.seen && p'.seen[k] == p.seen[k])
  {}

  lemma NoRowFrom(init: seq<Row>, row: Row, id: u64)
    requires Ascending(init + [row]) && id >= row.id
    ensures RowFor(init, id).None?
  {
    assert Ascending(init) by {
      forall i, j | 0 <= i < j < |init| ensures init[i].id < init[j].id {
        assert (init + [row])[i].id < (init + [row])[j].id;
      }
    }
    RowForMeaning(init, id);
    forall i | 0 <= i < |init| ensures init[i].id != id {
      assert (init + [row])[i].id < (init + [row])[|init|].id;
    }
  }

  lemma RowForIsStored(p: Packed, hash: Digest, rows: seq<Row>, id: u64)
    requires AllStored(p, hash, rows) && Ascending(rows) && RowFor(rows, id).Some?
    ensures Stored(p, hash, RowFor(rows, id).value.blob)
  {
    RowForMeaning(rows, id);
    var i :| 0 <= i < |rows| && rows[i] == RowFor(rows, id).value;
  }

  // The directory answers every id: with the place of its blob when there is such
  // a tile, with nothing when there is none.
  lemma {:induction false} PackAnswers(hash: Digest, rows: seq<Row>, id: u64)
    requires Injective(hash) && Packable(rows)
    ensures var p := Pack(hash, rows);
      && EndsAt(p.entries, rows)
      && Lookup(p.entries, id) == Answer(p, hash, RowFor(rows, id))
  {
    if rows != [] {
      var n := |rows| - 1;
      var init, row := rows[..n], rows[n];
      assert rows == init + [row];
      PackablePrefix(rows);
      PackStores(hash, init);
      if id >= row.id { NoRowFrom(init, row, id); }
      if RowFor(init, id).Some? { RowForIsStored(Pack(hash, init), hash, init, id); }
      hide PackRow, AllStored, SeenFrom, Ascending, FitsFields, Injective, Lookup, Answer, EndsAt;
      PackAnswers(hash, init, id);
      assert |init| + 1 < TWO_TO_THE_32 by { RowCount(rows); }
      PackAnswersStep(hash, Pack(hash, init), init, row, id);
    }
  }

  lemma RowCount(rows: seq<Row>)
    requires FitsFields(rows)
    ensures |rows| < TWO_TO_THE_32
  {}

  // ------------------------------------------------------------- layout

  function TotalRuns(es: seq<Entry>): nat {
    if es == [] then 0 else TotalRuns(es[..|es| - 1]) + es[|es| - 1].runLength
  }

  // End of the furthest blob any entry points at.
  function HighWater(es: seq<Entry>): nat {
    if es == [] then 0
    else
      var h := HighWater(es[..|es| - 1]);
      var e := es[|es| - 1];
      if e.offset + e.length > h then e.offset + e.length else h
  }

  // Runs are never empty, never overlap, and two that touch differ in content.
  predicate Beside(a: Entry, b: Entry) {
    End(a) <= b.tileId && (End(a) == b.tileId ==> SpanOf(a) != SpanOf(b))
  }

  predicate RunsApart(es: seq<Entry>) {
    es == [] ||
    (var n := |es| - 1;
    && RunsApart(es[..n])
    && es[n].runLength >= 1
    && (n > 0 ==> Beside(es[n - 1], es[n])))
  }

  lemma {:induction false} RunsApartMeaning(es: seq<Entry>, i: nat, j: nat)
    requires RunsApart(es) && i < j < |es|
    ensures es[i].runLength >= 1 && End(es[i]) <= es[j].tileId
    ensures j == i + 1 && End(es[i]) == es[j].tileId ==> SpanOf(es[i]) != SpanOf(es[j])
  {
    var n := |es| - 1;
    if j < n {
      RunsApartMeaning(es[..n], i, j);
    } else if i < n - 1 {
      RunsApartMeaning(es[..n], i, n - 1);
    } else {
      assert es[..n][i] == es[i];
    }
  }

  // What the header's `clustered` flag claims: each entry's blob either follows
  // everything before it, or is one an earlier entry points at.
  ghost predicate Clustered(es: seq<Entry>) {
    forall i :: 0 <= i < |es| ==> es[i].offset == HighWater(es[..i]) || exists j :: 0 <= j < i && SpanOf(es[j]) == SpanOf(es[i])
  }

  function Blobs(rows: seq<Row>): set<Bytes> {
    if rows == [] then {} else Blobs(rows[..|rows| - 1]) + {rows[|rows| - 1].blob}
  }

  lemma {:induction false} BlobsMeaning(rows: seq<Row>, blob: Bytes)
    ensures blob in Blobs(rows) <==> exists i :: 0 <= i < |rows| && rows[i].blob == blob
  {
    if rows != [] {
      var n := |rows| - 1;
      BlobsMeaning(rows[..n], blob);
      if blob in Blobs(rows[..n]) {
        var i :| 0 <= i < n && rows[..n][i].blob == blob;
        assert rows[i].blob == blob;
      } else if rows[n].blob != blob {
        forall i | 0 <= i < |rows| ensures rows[i].blob != blob {
          if i < n { assert rows[..n][i].blob == rows[i].blob; }
        }
      }
    }
  }

  // Every span in `seen` is one an entry points at.
  ghost predicate SpansUsed(p: Packed) {
    forall h :: h in p.seen ==> exists i :: 0 <= i < |p.entries| && SpanOf(p.entries[i]) == p.seen[h]
  }

  ghost predicate LaidOut(p: Packed, rows: seq<Row>) {
    && RunsApart(p.entries)
    && Clustered(p.entries)
    && TotalRuns(p.entries) == |rows|
    && HighWater(p.entries) == p.dataLen
    && |p.seen| == |Blobs(rows)| <= |p.entries| <= |rows|
    && SpansUsed(p)
  }

  lemma PushLayout(es: seq<Entry>, e: Entry)
    ensures RunsApart(es + [e]) <==> RunsApart(es) && e.runLength >= 1 && (es != [] ==> Beside(es[|es| - 1], e))
    ensures TotalRuns(es + [e]) == TotalRuns(es) + e.runLength
    ensures HighWater(es + [e]) == if e.offset + e.length > HighWater(es) then e.offset + e.length else HighWater(es)
  {
    assert (es + [e])[..|es|] == es;
  }

  lemma LongerIsPush(es: seq<Entry>)
    requires es != [] && es[|es| - 1].runLength + 1 < TWO_TO_THE_32
    ensures var n := |es| - 1;
      && es == es[..n] + [es[n]]
      && Longer(es) == es[..n] + [es[n].(runLength := es[n].runLength + 1)]
  {}

  lemma PushClustered(es: seq<Entry>, e: Entry)
    requires Clustered(es)
    requires e.offset == HighWater(es) || exists j :: 0 <= j < |es| && SpanOf(es[j]) == SpanOf(e)
    ensures Clustered(es + [e])
  {
    var es' := es + [e];
    forall i | 0 <= i < |es'|
      ensures es'[i].offset == HighWater(es'[..i]) || exists j :: 0 <= j < i && SpanOf(es'[j]) == SpanOf(es'[i])
    {
      if i < |es| {
        assert es'[..i] == es[..i];
        if es[i].offset != HighWater(es[..i]) {
          var j :| 0 <= j < i && SpanOf(es[j]) == SpanOf(es[i]);
          assert SpanOf(es'[j]) == SpanOf(es'[i]);
        }
      } else {
        assert es'[..i] == es;
        if e.offset != HighWater(es) {
          var j :| 0 <= j < |es| && SpanOf(es[j]) == SpanOf(e);
          assert SpanOf(es'[j]) == SpanOf(es'[i]);
        }
      }
    }
  }

  lemma LongerLayout(es: seq<Entry>)
    requires es != [] && RunsApart(es) && es[|es| - 1].runLength + 1 < TWO_TO_THE_32
    ensures RunsApart(Longer(es)) && TotalRuns(Longer(es)) == TotalRuns(es) + 1 && HighWater(Longer(es)) == HighWater(es)
  {
    var n := |es| - 1;
    var last := es[n];
    LongerIsPush(es);
    PushLayout(es[..n], last);
    PushLayout(es[..n], last.(runLength := last.runLength + 1));
  }

  lemma LongerClustered(es: seq<Entry>)
    requires es != [] && Clustered(es) && es[|es| - 1].runLength + 1 < TWO_TO_THE_32
    ensures Clustered(Longer(es))
  {
    var es' := Longer(es);
    forall i | 0 <= i < |es'|
      ensures es'[i].offset == HighWater(es'[..i]) || exists j :: 0 <= j < i && SpanOf(es'[j]) == SpanOf(es'[i])
    {
      assert es'[..i] == es[..i];
      if es[i].offset != HighWater(es[..i]) {
        var j :| 0 <= j < i && SpanOf(es[j]) == SpanOf(es[i]);
        assert SpanOf(es'[j]) == SpanOf(es'[i]);
      }
    }
  }

  lemma LayoutStep(hash: Digest, p: Packed, init: seq<Row>, row: Row)
    requires Injective(hash) && LaidOut(p, init) && EndsAt(p.entries, init)
    requires AllStored(p, hash, init) && SeenFrom(p, hash, init)
    requires init != [] ==> init[|init| - 1].id < row.id
    requires |init| + 1 < TWO_TO_THE_32 && 0 < |row.blob| < TWO_TO_THE_32 && p.dataLen + |row.blob| < TWO_TO_THE_64
    ensures LaidOut(PackRow(hash, p, row), init + [row])
  {
    BlobCount(hash, p, init, row);
    if Extends(p, row.id, hash(row.blob)) { PackRowLengthens(hash, p, row); }
    if p.entries != [] { LastRunFits(p, init); }
    hide Injective, AllStored, SeenFrom, LaidOut, Blobs, PackRow, EndsAt;
    if Extends(p, row.id, hash(row.blob)) {
      LongerStep(p, init, row);
    } else {
      PushStep(hash, p, init, row);
    }
  }

  lemma PackRowLengthens(hash: Digest, p: Packed, row: Row)
    requires Extends(p, row.id, hash(row.blob))
    ensures PackRow(hash, p, row) == p.(entries := Longer(p.entries)) && hash(row.blob) in p.seen
  {}

  lemma LastRunFits(p: Packed, rows: seq<Row>)
    requires EndsAt(p.entries, rows) && p.entries != []
    ensures p.entries[|p.entries| - 1].runLength <= |rows|
  {}

  lemma LongerStep(p: Packed, init: seq<Row>, row: Row)
    requires LaidOut(p, init) && p.entries != [] && p.entries[|p.entries| - 1].runLength + 1 < TWO_TO_THE_32
    requires |Blobs(init + [row])| == |Blobs(init)|
    ensures LaidOut(p.(entries := Longer(p.entries)), init + [row])
  {
    hide Clustered, SpansUsed, RunsApart, Blobs, TotalRuns, HighWater;
    LongerLayout(p.entries);
    LongerClustered(p.entries);
    LongerUses(p);
  }

  lemma PushStep(hash: Digest, p: Packed, init: seq<Row>, row: Row)
    requires LaidOut(p, init) && EndsAt(p.entries, init) && !Extends(p, row.id, hash(row.blob))
    requires init != [] ==> init[|init| - 1].id < row.id
    requires 0 < |row.blob| < TWO_TO_THE_32 && p.dataLen + |row.blob| < TWO_TO_THE_64
    requires |Blobs(init + [row])| == |Blobs(init)| + if hash(row.blob) in p.seen then 0 else 1
    ensures LaidOut(PackRow(hash, p, row), init + [row])
  {
    hide Clustered, SpansUsed, RunsApart, Blobs, TotalRuns, HighWater, EndsAt, Extends, Beside;
    PackRowPushes(hash, p, row);
    PushedBeside(hash, p, init, row);
    PushedReaches(hash, p, row);
    PushLayout(p.entries, PushedEntry(hash, p, row));
    PushedClustered(hash, p, row);
    PushUses(hash, p, row);
  }

  lemma PushedBeside(hash: Digest, p: Packed, init: seq<Row>, row: Row)
    requires EndsAt(p.entries, init) && !Extends(p, row.id, hash(row.blob)) && SpansUsed(p)
    requires init != [] ==> init[|init| - 1].id < row.id
    requires HighWater(p.entries) == p.dataLen
    requires 0 < |row.blob| < TWO_TO_THE_32
    ensures p.entries != [] ==> Beside(p.entries[|p.entries| - 1], PushedEntry(hash, p, row))
  {
    if p.entries != [] { BelowHighWater(p.entries, |p.entries| - 1); }
  }

  lemma PushedReaches(hash: Digest, p: Packed, row: Row)
    requires SpansUsed(p) && HighWater(p.entries) == p.dataLen
    requires |row.blob| < TWO_TO_THE_32 && p.dataLen + |row.blob| < TWO_TO_THE_64
    ensures var e := PushedEntry(hash, p, row);
      (if e.offset + e.length > p.dataLen then e.offset + e.length else p.dataLen) ==
        if hash(row.blob) in p.seen then p.dataLen else p.dataLen + |row.blob|
  {
    if hash(row.blob) in p.seen {
      var i :| 0 <= i < |p.entries| && SpanOf(p.entries[i]) == p.seen[hash(row.blob)];
      BelowHighWater(p.entries, i);
    }
  }

  lemma {:induction false} BelowHighWater(es: seq<Entry>, i: nat)
    requires i < |es|
    ensures es[i].offset + es[i].length <= HighWater(es)
  {
    if i < |es| - 1 { BelowHighWater(es[..|es| - 1], i); }
  }

  // A new digest is a new blob, and only then.
  lemma BlobCount(hash: Digest, p: Packed, init: seq<Row>, row: Row)
    requires Injective(hash) && AllStored(p, hash, init) && SeenFrom(p, hash, init)
    ensures Blobs(init + [row]) == Blobs(init) + {row.blob}
    ensures hash(row.blob) in p.seen <==> row.blob in Blobs(init)
    ensures |Blobs(init + [row])| == |Blobs(init)| + if hash(row.blob) in p.seen then 0 else 1
  {
    assert (init + [row])[..|init|] == init;
    BlobsMeaning(init, row.blob);
    if row.blob in Blobs(init) {
      var i :| 0 <= i < |init| && init[i].blob == row.blob;
      assert Stored(p, hash, init[i].blob);
      assert Blobs(init) + {row.blob} == Blobs(init);
    }
    if hash(row.blob) in p.seen {
      var i :| 0 <= i < |init| && hash(init[i].blob) == hash(row.blob);
    }
  }

  lemma LongerUses(p: Packed)
    requires p.entries != [] && SpansUsed(p)
    ensures SpansUsed(p.(entries := Longer(p.entries)))
  {
    var es := Longer(p.entries);
    forall h | h in p.seen ensures exists i :: 0 <= i < |es| && SpanOf(es[i]) == p.seen[h] {
      var i :| 0 <= i < |p.entries| && SpanOf(p.entries[i]) == p.seen[h];
      assert SpanOf(es[i]) == SpanOf(p.entries[i]);
    }
  }

  lemma PushUses(hash: Digest, p: Packed, row: Row)
    requires SpansUsed(p) && !Extends(p, row.id, hash(row.blob))
    ensures SpansUsed(PackRow(hash, p, row))
  {
    PackRowPushes(hash, p, row);
    var p' := PackRow(hash, p, row);
    forall h | h in p'.seen ensures exists i :: 0 <= i < |p'.entries| && SpanOf(p'.entries[i]) == p'.seen[h] {
      if h in p.seen {
        var i :| 0 <= i < |p.entries| && SpanOf(p.entries[i]) == p.seen[h];
        assert SpanOf(p'.entries[i]) == p'.seen[h];
      } else {
        assert SpanOf(p'.entries[|p.entries|]) == p'.seen[h];
      }
    }
  }

  lemma PushedClustered(hash: Digest, p: Packed, row: Row)
    requires SpansUsed(p) && Clustered(p.entries) && HighWater(p.entries) == p.dataLen
    ensures Clustered(p.entries + [PushedEntry(hash, p, row)])
  {
    PushClustered(p.entries, PushedEntry(hash, p, row));
  }

  // The layout the header describes: addressed tiles, entries, contents, clustered.
  lemma NoRowsLaidOut(hash: Digest)
    ensures LaidOut(Pack(hash, []), [])
  {}

  lemma PackLast(hash: Digest, rows: seq<Row>)
    requires rows != []
    ensures Pack(hash, rows) == PackRow(hash, Pack(hash, rows[..|rows| - 1]), rows[|rows| - 1])
  {}

  lemma PackableBytes(rows: seq<Row>)
    requires Packable(rows)
    ensures TotalBytes(rows) < TWO_TO_THE_64
  {}

  lemma {:induction false} PackLayout(hash: Digest, rows: seq<Row>)
    requires Injective(hash) && Packable(rows)
    ensures LaidOut(Pack(hash, rows), rows)
  {
    if rows == [] {
      NoRowsLaidOut(hash);
    } else {
      var n := |rows| - 1;
      var init, row := rows[..n], rows[n];
      assert rows == init + [row];
      PackablePrefix(rows);
      PackStores(hash, init);
      PackAnswers(hash, init, 0);
      RowCount(rows);
      PackableBytes(rows);
      PackLast(hash, rows);
      hide *;
      PackLayout(hash, init);
      LayoutStep(hash, Pack(hash, init), init, row);
    }
  }

  // ------------------------------------------------------------- the loop

  lemma PackSnoc(hash: Digest, rows: seq<Row>, i: nat)
    requires i < |rows|
    ensures Pack(hash, rows[..i + 1]) == PackRow(hash, Pack(hash, rows[..i]), rows[i])
  {
    assert rows[..i + 1][..i] == rows[..i];
  }

  // `addressed_tiles`, `entries`, `seen`, `data_len` and the staging file, filled
  // tile by tile in id order.
  method PackTiles(hash: Digest, rows: seq<Row>) returns (p: Packed, addressedTiles: nat)
    ensures p == Pack(hash, rows)
    ensures addressedTiles == |rows|
  {
    var entries: seq<Entry> := [];
    var seen: map<Bytes, Span> := map[];
    var dataLen: u64 := 0;
    var staging: Bytes := [];
    addressedTiles := 0;
    for i := 0 to |rows|
      invariant addressedTiles == i
      invariant Packed(entries, seen, dataLen, staging) == Pack(hash, rows[..i])
    {
      PackSnoc(hash, rows, i);
      entries, seen, dataLen, staging := PackTile(hash, entries, seen, dataLen, staging, rows[i].id, rows[i].blob);
      addressedTiles := addressedTiles + 1;
    }
    assert rows[..|rows|] == rows;
    p := Packed(entries, seen, dataLen, staging);
  }

  // The body of that loop.
  method PackTile(hash: Digest, entries0: seq<Entry>, seen0: map<Bytes, Span>, dataLen0: u64, staging0: Bytes,
      id: u64, blob: Bytes)
    returns (entries: seq<Entry>, seen: map<Bytes, Span>, dataLen: u64, staging: Bytes)
    ensures Packed(entries, seen, dataLen, staging)
      == PackRow(hash, Packed(entries0, seen0, dataLen0, staging0), Row(id, blob))
  {
    entries, seen, dataLen, staging := entries0, seen0, dataLen0, staging0;
    var h := hash(blob);
    if entries != [] {
      var last := entries[|entries| - 1];
      if Wrap64(last.tileId + last.runLength) == id && h in seen && seen[h] == Span(last.offset, last.length) {
        entries := entries[..|entries| - 1] + [last.(runLength := Wrap32(last.runLength + 1))];
        return;
      }
    }
    if h in seen {
      entries := entries + [Entry(id, seen[h].offset, seen[h].length, 1)];
    } else {
      var offset := dataLen;
      var length := Wrap32(|blob|);
      staging := staging + blob;
      dataLen := Wrap64(dataLen + length);
      seen := seen[h := Span(offset, length)];
      entries := entries + [Entry(id, offset, length, 1)];
    }
  }
}
