// The columnar directory codec (src/pmtiles.rs): a count, then one varint column
// per field, ids as deltas and offsets with a shorthand for "directly after the
// previous entry". Arithmetic wraps as in a release build.

module Directory {
  import opened Words
  import opened Varint

  const MAX_ENTRIES: nat := 10_000_000

  // A run of tiles sharing one blob; runLength 0 marks a leaf directory.
  datatype Entry = Entry(tileId: u64, offset: u64, length: u32, runLength: u32)

  datatype Parsed = Entries(es: seq<Entry>) | Malformed(error: Error)

  // ------------------------------------------------------------- writing

  function Delta(es: seq<Entry>, i: nat): u64
    requires i < |es|
  {
    Wrap64(es[i].tileId - if i == 0 then 0 else es[i - 1].tileId)
  }

  predicate Contiguous(es: seq<Entry>, i: nat)
    requires i < |es|
  {
    i > 0 && es[i].offset == Wrap64(es[i - 1].offset + es[i - 1].length)
  }

  function OffsetCode(es: seq<Entry>, i: nat): u64
    requires i < |es|
  {
    if Contiguous(es, i) then 0 else Wrap64(es[i].offset + 1)
  }

  function Deltas(es: seq<Entry>): (c: seq<u64>)
    ensures |c| == |es| && forall i :: 0 <= i < |es| ==> c[i] == Delta(es, i)
  {
    seq(|es|, i requires 0 <= i < |es| => Delta(es, i))
  }

  function Runs(es: seq<Entry>): (c: seq<u64>)
    ensures |c| == |es| && forall i :: 0 <= i < |es| ==> c[i] == es[i].runLength
  {
    seq(|es|, i requires 0 <= i < |es| => es[i].runLength)
  }

  function Lengths(es: seq<Entry>): (c: seq<u64>)
    ensures |c| == |es| && forall i :: 0 <= i < |es| ==> c[i] == es[i].length
  {
    seq(|es|, i requires 0 <= i < |es| => es[i].length)
  }

  function OffsetCodes(es: seq<Entry>): (c: seq<u64>)
    ensures |c| == |es| && forall i :: 0 <= i < |es| ==> c[i] == OffsetCode(es, i)
  {
    seq(|es|, i requires 0 <= i < |es| => OffsetCode(es, i))
  }

  function Columns(es: seq<Entry>): Bytes {
    EncodeColumn(Deltas(es)) + (EncodeColumn(Runs(es))
      + (EncodeColumn(Lengths(es)) + EncodeColumn(OffsetCodes(es))))
  }

  function Serialize(es: seq<Entry>): Bytes {
    Encode(|es|) + Columns(es)
  }

  function Numbers(es: seq<Entry>): seq<u64>
    requires |es| < TWO_TO_THE_64
  {
    [|es|] + (Deltas(es) + (Runs(es) + (Lengths(es) + OffsetCodes(es))))
  }

  lemma SerializedNumbers(es: seq<Entry>)
    requires |es| < TWO_TO_THE_64
    ensures Serialize(es) == EncodeColumn(Numbers(es))
  {
    assert EncodeColumn([|es|]) == Encode(|es|) by { assert EncodeColumn([]) + Encode(|es|) == Encode(|es|); }
    hide *;
    var ds, rs, ls, cs := Deltas(es), Runs(es), Lengths(es), OffsetCodes(es);
    ColumnsJoin(ls, cs);
    ColumnsJoin(rs, ls + cs);
    ColumnsJoin(ds, rs + (ls + cs));
    ColumnsJoin([|es|], ds + (rs + (ls + cs)));
    NumbersAre(es);
  }

  lemma NumbersAre(es: seq<Entry>)
    requires |es| < TWO_TO_THE_64
    ensures Numbers(es) == [|es|] + (Deltas(es) + (Runs(es) + (Lengths(es) + OffsetCodes(es))))
    ensures Serialize(es) == Encode(|es|) + (EncodeColumn(Deltas(es)) + (EncodeColumn(Runs(es))
      + (EncodeColumn(Lengths(es)) + EncodeColumn(OffsetCodes(es)))))
  {
    hide Deltas, Runs, Lengths, OffsetCodes, EncodeColumn, Encode;
  }

  lemma NumbersCounted(es: seq<Entry>)
    requires |es| < TWO_TO_THE_64
    ensures |Numbers(es)| == 4 * |es| + 1 && Numbers(es)[0] == |es|
  {
    hide Deltas, Runs, Lengths, OffsetCodes;
  }

  // The numbers about one entry among those of a directory: how far its id is from the
  // one before, its run, its length, and its offset plus one, or zero for "directly behind".
  predicate EntryIsAt(numbers: seq<int>, es: seq<Entry>, i: nat)
    requires i < |es| && |numbers| == 4 * |es| + 1
  {
    var n, e := |es|, es[i];
    && numbers[1 + i] == (e.tileId - if i == 0 then 0 else es[i - 1].tileId) % 0x1_0000_0000_0000_0000
    && numbers[n + 1 + i] == e.runLength
    && numbers[2 * n + 1 + i] == e.length
    && numbers[3 * n + 1 + i] ==
      if i > 0 && e.offset == (es[i - 1].offset + es[i - 1].length) % 0x1_0000_0000_0000_0000 then 0
      else (e.offset + 1) % 0x1_0000_0000_0000_0000
  }

  lemma NumbersBehind(es: seq<Entry>, i: nat)
    requires i < |es| < TWO_TO_THE_64
    ensures |Numbers(es)| == 4 * |es| + 1 && EntryIsAt(Numbers(es), es, i)
  {
    assert OffsetCode(es, i) == if i > 0 && es[i].offset == (es[i - 1].offset + es[i - 1].length) % 0x1_0000_0000_0000_0000 then 0
      else (es[i].offset + 1) % 0x1_0000_0000_0000_0000;
    assert Delta(es, i) == (es[i].tileId - if i == 0 then 0 else es[i - 1].tileId) % 0x1_0000_0000_0000_0000;
    hide Delta, OffsetCode, Deltas, Runs, Lengths, OffsetCodes;
    var ds, rs, ls, cs := Deltas(es), Runs(es), Lengths(es), OffsetCodes(es);
    assert (ls + cs)[i] == ls[i] && (ls + cs)[|es| + i] == cs[i];
    assert (rs + (ls + cs))[i] == rs[i] && (rs + (ls + cs))[|es| + i] == ls[i] && (rs + (ls + cs))[2 * |es| + i] == cs[i];
  }

  // The bytes of a directory are varints and nothing else: the number of entries, and then
  // a column for each of an entry's numbers.
  lemma DirectoryLayout(es: seq<Entry>)
    requires |es| < TWO_TO_THE_64
    ensures var read := DecodeColumn(Serialize(es), 0, 4 * |es| + 1);
      && read.Ok? && read.pos == |Serialize(es)| && read.value[0] == |es|
      && forall i :: 0 <= i < |es| ==> EntryIsAt(read.value, es, i)
  {
    SerializedNumbers(es);
    ColumnRoundTrip(EncodeColumn(Numbers(es)), 0, Numbers(es)) by { hide EncodeColumn, Numbers; }
    hide *;
    NumbersCounted(es);
    forall i | 0 <= i < |es| ensures EntryIsAt(Numbers(es), es, i) { NumbersBehind(es, i); }
  }

  // ------------------------------------------------------------- reading

  // Running sums of the id column.
  function Sums(deltas: seq<int>): (ids: seq<u64>)
    ensures |ids| == |deltas|
  {
    if deltas == [] then []
    else
      var ids := Sums(deltas[..|deltas| - 1]);
      ids + [NextId(ids, deltas[|deltas| - 1])]
  }

  function NextId(ids: seq<u64>, delta: int): u64 {
    Wrap64((if ids == [] then 0 else ids[|ids| - 1]) + delta)
  }

  function NextOffset(before: seq<u64>, lengths: seq<u32>, code: int): u64
    requires |before| <= |lengths|
  {
    if code == 0 && before != [] then Wrap64(before[|before| - 1] + lengths[|before| - 1])
    else Wrap64(code - 1)
  }

  // Offsets from the last column; a first code of zero has nothing to follow.
  function Offsets(codes: seq<int>, lengths: seq<u32>): (offsets: seq<u64>)
    requires |codes| <= |lengths|
    ensures |offsets| == |codes|
  {
    if codes == [] then []
    else
      var n := |codes| - 1;
      var before := Offsets(codes[..n], lengths);
      before + [NextOffset(before, lengths, codes[n])]
  }

  function Truncated(vs: seq<int>): (c: seq<u32>)
    ensures |c| == |vs| && forall i :: 0 <= i < |vs| ==> c[i] == Wrap32(vs[i])
  {
    seq(|vs|, i requires 0 <= i < |vs| => Wrap32(vs[i]))
  }

  function Assemble(ids: seq<u64>, runs: seq<u32>, lengths: seq<u32>, offsets: seq<u64>): (es: seq<Entry>)
    requires |ids| == |runs| == |lengths| == |offsets|
    ensures |es| == |ids|
    ensures forall i :: 0 <= i < |ids| ==> es[i] == Entry(ids[i], offsets[i], lengths[i], runs[i])
  {
    seq(|ids|, i requires 0 <= i < |ids| => Entry(ids[i], offsets[i], lengths[i], runs[i]))
  }

  // The columns behind the count, in the order the reader meets their errors.
  function ParseColumns(buf: Bytes, pos: nat, n: nat): Parsed {
    match DecodeColumn(buf, pos, n)
    case Err(e) => Malformed(e)
    case Ok(deltas, p1) =>
      match DecodeColumn(buf, p1, n)
      case Err(e) => Malformed(e)
      case Ok(runs, p2) =>
        match DecodeColumn(buf, p2, n)
        case Err(e) => Malformed(e)
        case Ok(lengths, p3) => ParseOffsets(buf, p3, n, deltas, runs, lengths)
  }

  function ParseOffsets(buf: Bytes, pos: nat, n: nat, deltas: seq<int>, runs: seq<int>, lengths: seq<int>): Parsed
    requires |deltas| == |runs| == |lengths| == n
  {
    if n > 0 && StartsWithZero(buf, pos) then Malformed(FirstEntryContiguous)
    else
      match DecodeColumn(buf, pos, n)
      case Err(e) => Malformed(e)
      case Ok(codes, _) =>
        Entries(Assemble(Sums(deltas), Truncated(runs), Truncated(lengths), Offsets(codes, Truncated(lengths))))
  }

  function Parse(buf: Bytes): Parsed {
    match Decode(buf, 0)
    case Err(e) => Malformed(e)
    case Ok(count, pos) =>
      if count < 0 || count > MAX_ENTRIES then Malformed(ImplausibleCount) else ParseColumns(buf, pos, count)
  }

  // ------------------------------------------------------------- round trip

  // Every offset has a code of its own: the largest u64 has not, unless the
  // shorthand applies.
  predicate OffsetsEncodable(es: seq<Entry>) {
    forall i :: 0 <= i < |es| && es[i].offset == TWO_TO_THE_64 - 1 ==> Contiguous(es, i)
  }

  function Ids(es: seq<Entry>): (c: seq<u64>)
    ensures |c| == |es| && forall i :: 0 <= i < |es| ==> c[i] == es[i].tileId
  {
    seq(|es|, i requires 0 <= i < |es| => es[i].tileId)
  }

  lemma WrapOfDelta(a: u64, b: u64)
    ensures Wrap64(a + Wrap64(b - a)) == b
  {
    if b >= a { assert Wrap64(b - a) == b - a; }
    else { assert Wrap64(b - a) == b - a + TWO_TO_THE_64; }
  }

  lemma {:induction false} SumsOfDeltas(es: seq<Entry>)
    ensures Sums(Deltas(es)) == Ids(es)
  {
    if es != [] {
      var n := |es| - 1;
      SumsOfDeltas(es[..n]);
      assert Deltas(es)[..n] == Deltas(es[..n]);
      WrapOfDelta(if n == 0 then 0 else es[n - 1].tileId, es[n].tileId);
      assert Ids(es) == Ids(es[..n]) + [es[n].tileId];
    }
  }

  lemma {:induction false} OffsetAt(codes: seq<int>, lengths: seq<u32>, i: nat)
    requires |codes| <= |lengths| && i < |codes|
    ensures Offsets(codes, lengths)[i] ==
      if codes[i] == 0 && i > 0 then Wrap64(Offsets(codes, lengths)[i - 1] + lengths[i - 1])
      else Wrap64(codes[i] - 1)
  {
    var n := |codes| - 1;
    if i < n { OffsetAt(codes[..n], lengths, i); }
  }

  lemma CodeMeaning(es: seq<Entry>, i: nat)
    requires i < |es|
    ensures OffsetCode(es, i) == 0 <==> Contiguous(es, i) || es[i].offset == TWO_TO_THE_64 - 1
    ensures OffsetCode(es, i) != 0 ==> Wrap64(OffsetCode(es, i) - 1) == es[i].offset
  {
    if es[i].offset < TWO_TO_THE_64 - 1 { assert Wrap64(es[i].offset + 1) == es[i].offset + 1; }
  }

  // What decoding makes of one offset, given that the one before came out right.
  lemma OneOffset(es: seq<Entry>, i: nat)
    requires i < |es|
    requires i == 0 ==> OffsetCode(es, 0) != 0
    requires i > 0 ==> Offsets(OffsetCodes(es), Truncated(Lengths(es)))[i - 1] == es[i - 1].offset
    ensures Offsets(OffsetCodes(es), Truncated(Lengths(es)))[i] == es[i].offset
       <==> (es[i].offset == TWO_TO_THE_64 - 1 ==> Contiguous(es, i))
  {
    var lengths := Truncated(Lengths(es));
    var back := Offsets(OffsetCodes(es), lengths);
    OffsetAt(OffsetCodes(es), lengths, i);
    CodeMeaning(es, i);
    if OffsetCode(es, i) == 0 {
      assert lengths[i - 1] == es[i - 1].length;
      assert back[i] == Wrap64(es[i - 1].offset + es[i - 1].length);
    } else {
      assert back[i] == Wrap64(OffsetCode(es, i) - 1);
    }
  }

  lemma {:induction false} OffsetsOfCodes(es: seq<Entry>, n: nat)
    requires n <= |es| && OffsetsEncodable(es)
    ensures forall i :: 0 <= i < n ==> Offsets(OffsetCodes(es), Truncated(Lengths(es)))[i] == es[i].offset
  {
    if n > 0 {
      OffsetsOfCodes(es, n - 1);
      OneOffset(es, n - 1);
    }
  }

  // What parsing makes of a serialized directory.
  function Reparsed(es: seq<Entry>): Parsed {
    if es != [] && OffsetCode(es, 0) == 0 then Malformed(FirstEntryContiguous)
    else Entries(Assemble(Ids(es), Truncated(Runs(es)), Truncated(Lengths(es)),
      Offsets(OffsetCodes(es), Truncated(Lengths(es)))))
  }

  lemma ParseOffsetsOfSerialized(buf: Bytes, pos: nat, es: seq<Entry>)
    requires At(buf, pos, EncodeColumn(OffsetCodes(es)))
    ensures ParseOffsets(buf, pos, |es|, Deltas(es), Runs(es), Lengths(es)) == Reparsed(es)
  {
    hide DecodeColumn, EncodeColumn, At, Offsets, Truncated, Assemble, Sums, Deltas, OffsetCode, Decode;
    ColumnRoundTrip(buf, pos, OffsetCodes(es));
    if es != [] { FirstOfColumn(buf, pos, OffsetCodes(es)); }
    SumsOfDeltas(es);
  }

  lemma ParseColumnsSteps(buf: Bytes, pos: nat, n: nat,
      deltas: seq<int>, p1: nat, runs: seq<int>, p2: nat, lengths: seq<int>, p3: nat)
    requires DecodeColumn(buf, pos, n) == Ok(deltas, p1)
    requires DecodeColumn(buf, p1, n) == Ok(runs, p2)
    requires DecodeColumn(buf, p2, n) == Ok(lengths, p3)
    ensures ParseColumns(buf, pos, n) == ParseOffsets(buf, p3, n, deltas, runs, lengths)
  {}

  lemma ColumnsParts(es: seq<Entry>)
    ensures |Deltas(es)| == |Runs(es)| == |Lengths(es)| == |es|
    ensures Columns(es) == EncodeColumn(Deltas(es))
      + (EncodeColumn(Runs(es)) + (EncodeColumn(Lengths(es)) + EncodeColumn(OffsetCodes(es))))
  {}

  lemma ParseColumnsOfSerialized(buf: Bytes, pos: nat, es: seq<Entry>)
    requires At(buf, pos, Columns(es))
    ensures ParseColumns(buf, pos, |es|) == Reparsed(es)
  {
    var ds, rs, ls := Deltas(es), Runs(es), Lengths(es);
    var rest3 := EncodeColumn(OffsetCodes(es));
    var rest2 := EncodeColumn(ls) + rest3;
    var rest1 := EncodeColumn(rs) + rest2;
    var p1 := pos + |EncodeColumn(ds)|;
    var p2 := p1 + |EncodeColumn(rs)|;
    var p3 := p2 + |EncodeColumn(ls)|;
    ColumnsParts(es);
    hide *;
    NextColumn(buf, pos, ds, rest1);
    NextColumn(buf, p1, rs, rest2);
    NextColumn(buf, p2, ls, rest3);
    ParseColumnsSteps(buf, pos, |es|, ds, p1, rs, p2, ls, p3);
    ParseOffsetsOfSerialized(buf, p3, es);
  }

  lemma ParseBehindCount(buf: Bytes, count: nat)
    requires count < TWO_TO_THE_64 && At(buf, 0, Encode(count))
    ensures Parse(buf) ==
      if count > MAX_ENTRIES then Malformed(ImplausibleCount) else ParseColumns(buf, |Encode(count)|, count)
  {
    DecodeOfEncode(buf, 0, count);
  }

  lemma ParseOfSerialize(es: seq<Entry>)
    requires |es| < TWO_TO_THE_64
    ensures Parse(Serialize(es)) == if |es| > MAX_ENTRIES then Malformed(ImplausibleCount) else Reparsed(es)
  {
    AtHalves(Encode(|es|), Columns(es));
    ParseBehindCount(Serialize(es), |es|);
    ParseColumnsOfSerialized(Serialize(es), |Encode(|es|)|, es);
  }

  lemma {:induction false} FirstOfColumn(buf: Bytes, pos: nat, vs: seq<u64>)
    requires vs != [] && At(buf, pos, EncodeColumn(vs))
    ensures Decode(buf, pos).Ok? && Decode(buf, pos).value == vs[0]
  {
    var n := |vs| - 1;
    AtConcat(buf, pos, EncodeColumn(vs[..n]), Encode(vs[n]));
    if n > 0 { FirstOfColumn(buf, pos, vs[..n]); }
    else { DecodeOfEncode(buf, pos, vs[0]); }
  }

  // The directory round trip, and exactly when it holds. The order of the ids
  // does not matter to the codec; it matters to the lookup.
  lemma DirectoryRoundTrip(es: seq<Entry>)
    requires |es| < TWO_TO_THE_64
    ensures Parse(Serialize(es)) == Entries(es) <==> |es| <= 10_000_000 && OffsetsEncodable(es)
  {
    ParseOfSerialize(es);
    if OffsetsEncodable(es) { EncodableReparsed(es); } else { UnencodableReparsed(es); }
  }

  lemma EncodableReparsed(es: seq<Entry>)
    requires OffsetsEncodable(es)
    ensures Reparsed(es) == Entries(es)
  {
    if es != [] { CodeMeaning(es, 0); }
    OffsetsOfCodes(es, |es|);
    var back := Assemble(Ids(es), Truncated(Runs(es)), Truncated(Lengths(es)),
      Offsets(OffsetCodes(es), Truncated(Lengths(es))));
    assert forall i :: 0 <= i < |es| ==> back[i] == es[i];
  }

  lemma UnencodableReparsed(es: seq<Entry>)
    requires !OffsetsEncodable(es)
    ensures Reparsed(es) != Entries(es)
  {
    if OffsetCode(es, 0) != 0 { UnencodableOffsetLost(es); }
  }

  lemma UnencodableOffsetLost(es: seq<Entry>)
    requires es != [] && !OffsetsEncodable(es) && OffsetCode(es, 0) != 0
    ensures exists i :: 0 <= i < |es| && Offsets(OffsetCodes(es), Truncated(Lengths(es)))[i] != es[i].offset
  {
    var i :| 0 <= i < |es| && es[i].offset == TWO_TO_THE_64 - 1 && !Contiguous(es, i);
    if i > 0 && Offsets(OffsetCodes(es), Truncated(Lengths(es)))[i - 1] != es[i - 1].offset {
    } else {
      OneOffset(es, i);
    }
  }

  // ------------------------------------------------------------- the loops

  lemma AppendBehind(head: Bytes, a: Bytes, b: Bytes)
    ensures (head + a) + b == head + (a + b)
  {}

  lemma FourBehind(n: Bytes, a: Bytes, b: Bytes, c: Bytes, d: Bytes)
    ensures (((n + a) + b) + c) + d == n + (a + (b + (c + d)))
  {
    AppendBehind((n + a) + b, c, d);
    AppendBehind(n + a, b, c + d);
    AppendBehind(n, a, b + (c + d));
  }

  // `serialize_directory`: the count, then a loop per column.
  method SerializeDirectory(entries: seq<Entry>) returns (out: Bytes)
    requires |entries| < TWO_TO_THE_64
    ensures out == Serialize(entries)
  {
    out := WriteVarint([], |entries|);
    out := AppendDeltas(out, entries);
    out := AppendRuns(out, entries);
    out := AppendLengths(out, entries);
    out := AppendOffsets(out, entries);
    FourBehind(Encode(|entries|), EncodeColumn(Deltas(entries)), EncodeColumn(Runs(entries)),
      EncodeColumn(Lengths(entries)), EncodeColumn(OffsetCodes(entries)));
  }

  method AppendDeltas(head: Bytes, entries: seq<Entry>) returns (out: Bytes)
    ensures out == head + EncodeColumn(Deltas(entries))
  {
    out := head;
    var lastId: u64 := 0;
    ghost var column := Deltas(entries);
    for i := 0 to |entries|
      invariant out == head + EncodeColumn(column[..i])
      invariant lastId == if i == 0 then 0 else entries[i - 1].tileId
    {
      ColumnSnoc(column, i);
      AppendBehind(head, EncodeColumn(column[..i]), Encode(column[i]));
      out := WriteVarint(out, Wrap64(entries[i].tileId - lastId));
      lastId := entries[i].tileId;
    }
    assert column[..|entries|] == column;
  }

  method AppendRuns(head: Bytes, entries: seq<Entry>) returns (out: Bytes)
    ensures out == head + EncodeColumn(Runs(entries))
  {
    out := head;
    ghost var column := Runs(entries);
    for i := 0 to |entries|
      invariant out == head + EncodeColumn(column[..i])
    {
      ColumnSnoc(column, i);
      AppendBehind(head, EncodeColumn(column[..i]), Encode(column[i]));
      out := WriteVarint(out, entries[i].runLength);
    }
    assert column[..|entries|] == column;
  }

  method AppendLengths(head: Bytes, entries: seq<Entry>) returns (out: Bytes)
    ensures out == head + EncodeColumn(Lengths(entries))
  {
    out := head;
    ghost var column := Lengths(entries);
    for i := 0 to |entries|
      invariant out == head + EncodeColumn(column[..i])
    {
      ColumnSnoc(column, i);
      AppendBehind(head, EncodeColumn(column[..i]), Encode(column[i]));
      out := WriteVarint(out, entries[i].length);
    }
    assert column[..|entries|] == column;
  }

  method AppendOffsets(head: Bytes, entries: seq<Entry>) returns (out: Bytes)
    ensures out == head + EncodeColumn(OffsetCodes(entries))
  {
    out := head;
    ghost var column := OffsetCodes(entries);
    for i := 0 to |entries|
      invariant out == head + EncodeColumn(column[..i])
    {
      ColumnSnoc(column, i);
      AppendBehind(head, EncodeColumn(column[..i]), Encode(column[i]));
      if i > 0 && entries[i].offset == Wrap64(entries[i - 1].offset + entries[i - 1].length) {
        out := WriteVarint(out, 0);
      } else {
        out := WriteVarint(out, Wrap64(entries[i].offset + 1));
      }
    }
    assert column[..|entries|] == column;
  }

  lemma SumsSnoc(deltas: seq<int>, v: int)
    ensures Sums(deltas + [v]) == Sums(deltas) + [NextId(Sums(deltas), v)]
  {
    var all := deltas + [v];
    assert all[..|all| - 1] == deltas;
  }

  lemma OffsetsSnoc(codes: seq<int>, lengths: seq<u32>, v: int)
    requires |codes| < |lengths|
    ensures Offsets(codes + [v], lengths) == Offsets(codes, lengths) + [NextOffset(Offsets(codes, lengths), lengths, v)]
  {
    var all := codes + [v];
    assert all[..|all| - 1] == codes;
  }

  lemma NextOffsetCases(before: seq<u64>, lengths: seq<u32>, code: u64)
    requires |before| <= |lengths|
    ensures code != 0 ==> NextOffset(before, lengths, code) == code - 1
    ensures code == 0 && before != [] ==>
      NextOffset(before, lengths, code) == Wrap64(before[|before| - 1] + lengths[|before| - 1])
  {}

  // What a column-reading loop hands to the next one.
  datatype Step = Step(entries: seq<Entry>, pos: nat) | Failed(error: Error)

  method ReadIds(bytes: Bytes, start: nat, count: nat) returns (r: Step, ghost deltas: seq<int>)
    ensures r.Failed? ==> DecodeColumn(bytes, start, count) == Err(r.error)
    ensures r.Step? ==> DecodeColumn(bytes, start, count) == Ok(deltas, r.pos) && |r.entries| == count
    ensures r.Step? ==> forall j :: 0 <= j < count ==> r.entries[j] == Entry(Sums(deltas)[j], 0, 0, 0)
  {
    var entries: seq<Entry> := [];
    var pos := start;
    var lastId: u64 := 0;
    ghost var ids: seq<u64> := [];
    deltas := [];
    for i := 0 to count
      invariant |entries| == |ids| == i
      invariant DecodeColumn(bytes, start, i) == Ok(deltas, pos)
      invariant ids == Sums(deltas)
      invariant lastId == if i == 0 then 0 else ids[i - 1]
      invariant forall j :: 0 <= j < i ==> entries[j] == Entry(ids[j], 0, 0, 0)
    {
      var v := ReadVarint(bytes, pos);
      if v.Err? {
        ColumnFails(bytes, start, i, count);
        return Failed(v.error), deltas;
      }
      ColumnContinues(bytes, start, i, deltas, pos);
      SumsSnoc(deltas, v.value);
      lastId := Wrap64(lastId + v.value);
      ids := ids + [lastId];
      entries := entries + [Entry(lastId, 0, 0, 0)];
      deltas := deltas + [v.value];
      pos := v.pos;
    }
    r := Step(entries, pos);
  }

  method ReadRuns(bytes: Bytes, start: nat, entries0: seq<Entry>) returns (r: Step, ghost runs: seq<int>)
    ensures r.Failed? ==> DecodeColumn(bytes, start, |entries0|) == Err(r.error)
    ensures r.Step? ==> DecodeColumn(bytes, start, |entries0|) == Ok(runs, r.pos) && |r.entries| == |entries0|
    ensures r.Step? ==> forall j :: 0 <= j < |entries0| ==>
      r.entries[j] == entries0[j].(runLength := Truncated(runs)[j])
  {
    var entries := entries0;
    var pos := start;
    runs := [];
    for i := 0 to |entries0|
      invariant |entries| == |entries0| && |runs| == i
      invariant DecodeColumn(bytes, start, i) == Ok(runs, pos)
      invariant forall j :: 0 <= j < i ==> entries[j] == entries0[j].(runLength := Wrap32(runs[j]))
      invariant forall j :: i <= j < |entries0| ==> entries[j] == entries0[j]
    {
      var v := ReadVarint(bytes, pos);
      if v.Err? {
        ColumnFails(bytes, start, i, |entries0|);
        return Failed(v.error), runs;
      }
      ColumnContinues(bytes, start, i, runs, pos);
      entries := entries[i := entries[i].(runLength := Wrap32(v.value))];
      runs := runs + [v.value];
      pos := v.pos;
    }
    r := Step(entries, pos);
  }

  method ReadLengths(bytes: Bytes, start: nat, entries0: seq<Entry>) returns (r: Step, ghost lengths: seq<int>)
    ensures r.Failed? ==> DecodeColumn(bytes, start, |entries0|) == Err(r.error)
    ensures r.Step? ==> DecodeColumn(bytes, start, |entries0|) == Ok(lengths, r.pos) && |r.entries| == |entries0|
    ensures r.Step? ==> forall j :: 0 <= j < |entries0| ==>
      r.entries[j] == entries0[j].(length := Truncated(lengths)[j])
  {
    var entries := entries0;
    var pos := start;
    lengths := [];
    for i := 0 to |entries0|
      invariant |entries| == |entries0| && |lengths| == i
      invariant DecodeColumn(bytes, start, i) == Ok(lengths, pos)
      invariant forall j :: 0 <= j < i ==> entries[j] == entries0[j].(length := Wrap32(lengths[j]))
      invariant forall j :: i <= j < |entries0| ==> entries[j] == entries0[j]
    {
      var v := ReadVarint(bytes, pos);
      if v.Err? {
        ColumnFails(bytes, start, i, |entries0|);
        return Failed(v.error), lengths;
      }
      ColumnContinues(bytes, start, i, lengths, pos);
      entries := entries[i := entries[i].(length := Wrap32(v.value))];
      lengths := lengths + [v.value];
      pos := v.pos;
    }
    r := Step(entries, pos);
  }

  predicate StartsWithZero(bytes: Bytes, start: nat) {
    Decode(bytes, start).Ok? && Decode(bytes, start).value == 0
  }

  // The entries once the first offsets are filled in.
  ghost predicate Filled(entries: seq<Entry>, entries0: seq<Entry>, offsets: seq<u64>) {
    && |entries| == |entries0| && |offsets| <= |entries0|
    && (forall j :: 0 <= j < |offsets| ==> entries[j] == entries0[j].(offset := offsets[j]))
    && (forall j :: |offsets| <= j < |entries0| ==> entries[j] == entries0[j])
  }

  lemma FillNext(entries: seq<Entry>, entries0: seq<Entry>, offsets: seq<u64>, offset: u64)
    requires Filled(entries, entries0, offsets) && |offsets| < |entries0|
    ensures Filled(entries[|offsets| := entries[|offsets|].(offset := offset)], entries0, offsets + [offset])
  {}

  lemma FilledBefore(entries: seq<Entry>, entries0: seq<Entry>, offsets: seq<u64>)
    requires Filled(entries, entries0, offsets) && offsets != []
    ensures var n := |offsets| - 1; entries[n].offset == offsets[n] && entries[n].length == LengthsOf(entries0)[n]
  {}

  lemma NothingRead(bytes: Bytes, start: nat, entries0: seq<Entry>)
    ensures DecodeColumn(bytes, start, 0) == Ok([], start) && Offsets([], LengthsOf(entries0)) == []
    ensures Filled(entries0, entries0, [])
    ensures StartsWithZero(bytes, start) <==> Decode(bytes, start).Ok? && Decode(bytes, start).value == 0
  {}

  method ReadOffsets(bytes: Bytes, start: nat, entries0: seq<Entry>) returns (r: Step, ghost codes: seq<int>)
    ensures entries0 != [] && StartsWithZero(bytes, start) ==> r == Failed(FirstEntryContiguous)
    ensures r.Failed? && !(entries0 != [] && StartsWithZero(bytes, start)) ==>
      DecodeColumn(bytes, start, |entries0|) == Err(r.error)
    ensures r.Step? ==> DecodeColumn(bytes, start, |entries0|) == Ok(codes, r.pos)
    ensures r.Step? ==> Filled(r.entries, entries0, Offsets(codes, LengthsOf(entries0)))
    ensures r.Step? ==> |Offsets(codes, LengthsOf(entries0))| == |entries0|
  {
    hide *;
    var entries := entries0;
    var pos := start;
    ghost var lengths := LengthsOf(entries0);
    ghost var offsets: seq<u64> := [];
    codes := [];
    NothingRead(bytes, start, entries0);
    for i := 0 to |entries0|
      invariant |entries| == |entries0| && |offsets| == |codes| == i && |lengths| == |entries0|
      invariant if i == 0 then pos == start else !StartsWithZero(bytes, start)
      invariant DecodeColumn(bytes, start, i) == Ok(codes, pos)
      invariant offsets == Offsets(codes, lengths)
      invariant Filled(entries, entries0, offsets)
    {
      var raw := ReadVarint(bytes, pos);
      if raw.Err? {
        ColumnFails(bytes, start, i, |entries0|);
        return Failed(raw.error), codes;
      }
      ColumnContinues(bytes, start, i, codes, pos);
      OffsetsSnoc(codes, lengths, raw.value);
      NextOffsetCases(offsets, lengths, raw.value);
      var offset: u64;
      if raw.value == 0 {
        if i == 0 { return Failed(FirstEntryContiguous), codes; }
        FilledBefore(entries, entries0, offsets);
        offset := Wrap64(entries[i - 1].offset + entries[i - 1].length);
      } else {
        offset := raw.value - 1;
      }
      FillNext(entries, entries0, offsets, offset);
      entries := entries[i := entries[i].(offset := offset)];
      offsets := offsets + [offset];
      codes := codes + [raw.value];
      pos := raw.pos;
    }
    r := Step(entries, pos);
  }

  function LengthsOf(es: seq<Entry>): (c: seq<u32>)
    ensures |c| == |es| && forall i :: 0 <= i < |es| ==> c[i] == es[i].length
  {
    seq(|es|, i requires 0 <= i < |es| => es[i].length)
  }

  // `deserialize_directory`: fills the entries column by column.
  method DeserializeDirectory(bytes: Bytes) returns (r: Parsed)
    ensures r == Parse(bytes)
  {
    var count := ReadVarint(bytes, 0);
    if count.Err? { return Malformed(count.error); }
    if count.value > MAX_ENTRIES { return Malformed(ImplausibleCount); }
    var n: nat := count.value;
    var ids, deltas := ReadIds(bytes, count.pos, n);
    if ids.Failed? { return Malformed(ids.error); }
    var runs, runValues := ReadRuns(bytes, ids.pos, ids.entries);
    if runs.Failed? { return Malformed(runs.error); }
    var lengths, lengthValues := ReadLengths(bytes, runs.pos, runs.entries);
    if lengths.Failed? { return Malformed(lengths.error); }
    ParseColumnsSteps(bytes, count.pos, n, deltas, ids.pos, runValues, runs.pos, lengthValues, lengths.pos);
    var offsets, codes := ReadOffsets(bytes, lengths.pos, lengths.entries);
    if offsets.Failed? { return Malformed(offsets.error); }
    assert LengthsOf(lengths.entries) == Truncated(lengthValues);
    ghost var parsed := Assemble(Sums(deltas), Truncated(runValues), Truncated(lengthValues),
      Offsets(codes, Truncated(lengthValues)));
    assert forall j :: 0 <= j < n ==> offsets.entries[j] == parsed[j];
    return Entries(offsets.entries);
  }
}
