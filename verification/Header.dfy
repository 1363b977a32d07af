// The fixed 127-byte header (src/pmtiles.rs): PMTiles version 3, section 3.

module Header {
  import opened Words
  import opened Varint

  const HEADER_LEN: nat := 127
  const VERSION: u8 := 3
  // "PMTiles"
  const MAGIC: Bytes := [0x50, 0x4D, 0x54, 0x69, 0x6C, 0x65, 0x73]

  datatype Compression = Uncompressed | Gzipped
  datatype TileType = Mvt

  type i32 = x: int | -0x8000_0000 <= x < 0x8000_0000

  // Positions are kept as they are stored: degrees times ten million.
  datatype Header = Header(
    rootOffset: u64, rootLength: u64, metadataOffset: u64, metadataLength: u64,
    leafOffset: u64, leafLength: u64, dataOffset: u64, dataLength: u64,
    addressedTiles: u64, tileEntries: u64, tileContents: u64,
    clustered: bool, internalCompression: Compression, tileCompression: Compression, tileType: TileType,
    minZoom: u8, maxZoom: u8,
    minLon: i32, minLat: i32, maxLon: i32, maxLat: i32,
    centerZoom: u8, centerLon: i32, centerLat: i32)

  datatype HeaderResult = Good(header: Header) | TooShort | BadMagic | BadVersion | BadCompression | BadTileType

  // ------------------------------------------------------------- integers

  // `to_le_bytes` and `from_le_bytes`
  function Le(v: nat, n: nat): (s: Bytes)
    ensures |s| == n
  {
    if n == 0 then [] else [v % 0x100] + Le(v / 0x100, n - 1)
  }

  function FromLe(s: Bytes): nat {
    if s == [] then 0 else s[0] + 0x100 * FromLe(s[1..])
  }

  // The lowest byte comes first.
  lemma {:induction false} LeByte(v: nat, n: nat, i: nat)
    requires i < n
    ensures Limit(i) > 0 && Le(v, n)[i] == v / Limit(i) % 0x100
  {
    LimitPositive(i);
    if i > 0 {
      LeByte(v / 0x100, n - 1, i - 1);
      DivTwice(v, Limit(i - 1));
    }
  }

  lemma {:induction false} LimitPositive(n: nat)
    ensures Limit(n) > 0
  {
    if n > 0 { LimitPositive(n - 1); }
  }

  lemma DivTwice(v: nat, b: nat)
    requires b > 0
    ensures v / 0x100 / b == v / (0x100 * b)
  {
    var u, s := v / 0x100, v % 0x100;
    var q, r := u / b, u % b;
    assert u == q * b + r;
    Scaled(q, b);
    DivModOf(q, 0x100 * b, 0x100 * r + s);
  }

  lemma Scaled(q: nat, b: nat)
    ensures q * (0x100 * b) == 0x100 * (q * b)
  {}

  function Limit(n: nat): nat {
    if n == 0 then 1 else 0x100 * Limit(n - 1)
  }

  lemma {:induction false} FromLeOfLe(v: nat, n: nat)
    requires v < Limit(n)
    ensures FromLe(Le(v, n)) == v
  {
    if n > 0 {
      FromLeOfLe(v / 0x100, n - 1);
      assert Le(v, n)[1..] == Le(v / 0x100, n - 1);
    }
  }

  lemma Limits()
    ensures Limit(4) == TWO_TO_THE_32 && Limit(8) == TWO_TO_THE_64
  {
    assert Limit(4) == 0x100 * (0x100 * (0x100 * 0x100));
    assert Limit(8) == 0x100 * (0x100 * (0x100 * (0x100 * Limit(4))));
  }

  function Signed(v: u32): i32 {
    if v >= 0x8000_0000 then v - TWO_TO_THE_32 else v
  }

  lemma SignedOfWrap(p: i32)
    ensures Signed(Wrap32(p)) == p
  {}

  // ------------------------------------------------------------- degrees

  const SCALE: real := 10_000_000.0

  // Half away from zero.
  function Round(x: real): int {
    if x >= 0.0 then (x + 0.5).Floor else -(0.5 - x).Floor
  }

  // The nearest integer, the one further from zero when two are.
  lemma RoundMeaning(x: real)
    ensures x >= 0.0 ==> x - 0.5 < Round(x) as real <= x + 0.5
    ensures Round(-x) == -Round(x)
  {}

  // `position`: scaled, rounded, and a cast that saturates.
  function Position(degrees: real): i32 {
    var v := Round(degrees * SCALE);
    if v < -0x8000_0000 then -0x8000_0000 else if v > 0x7fff_ffff then 0x7fff_ffff else v
  }

  // `position_from`
  function Degrees(p: i32): real { p as real / SCALE }

  // What is read back is stored again as it was ...
  lemma PositionOfDegrees(p: i32)
    ensures Position(Degrees(p)) == p
  {
    assert Degrees(p) * SCALE == p as real;
  }

  // ... and is within half a unit of what was given exactly when the cast does not
  // saturate by more: up to some 214 degrees, so for every longitude and latitude.
  lemma DegreesOfPosition(degrees: real)
    ensures -0.5 <= (Degrees(Position(degrees)) - degrees) * SCALE <= 0.5 <==>
      -0x8000_0000 as real - 0.5 <= degrees * SCALE <= 0x7fff_ffff as real + 0.5
  {
    var x := degrees * SCALE;
    assert (Degrees(Position(degrees)) - degrees) * SCALE == Position(degrees) as real - x;
  }

  // ------------------------------------------------------------- layout

  // Integers of n bytes each, one after the other.
  function Fixed(vs: seq<nat>, n: nat): (s: Bytes)
    ensures |s| == |vs| * n
  {
    if vs == [] then []
    else
      assert |vs| * n == n + (|vs| - 1) * n;
      Le(vs[0], n) + Fixed(vs[1..], n)
  }

  lemma {:induction false} FixedAt(vs: seq<nat>, n: nat, k: nat)
    requires k < |vs|
    ensures k * n + n <= |vs| * n
    ensures Fixed(vs, n)[k * n..k * n + n] == Le(vs[k], n)
  {
    hide *;
    var rest := Fixed(vs[1..], n);
    FixedUnfolded(vs, n);
    ProductStep(|vs|, n);
    if k == 0 {
      SliceOfHead(Le(vs[0], n), rest);
    } else {
      FixedAt(vs[1..], n, k - 1);
      ProductStep(k, n);
      SliceOfTail(Le(vs[0], n), rest, (k - 1) * n, n);
    }
  }

  lemma FixedUnfolded(vs: seq<nat>, n: nat)
    requires vs != []
    ensures Fixed(vs, n) == Le(vs[0], n) + Fixed(vs[1..], n)
  {}

  lemma SliceOfHead(a: Bytes, b: Bytes)
    ensures (a + b)[0..|a|] == a
  {}

  lemma ProductStep(k: nat, n: nat)
    requires k > 0
    ensures k * n == n + (k - 1) * n
  {}

  lemma SliceOfTail(a: Bytes, b: Bytes, i: nat, n: nat)
    requires i + n <= |b|
    ensures (a + b)[|a| + i..|a| + i + n] == b[i..i + n]
  {}

  function Sizes(h: Header): (s: seq<nat>)
    ensures |s| == 11
  {
    [h.rootOffset, h.rootLength, h.metadataOffset, h.metadataLength, h.leafOffset, h.leafLength,
     h.dataOffset, h.dataLength, h.addressedTiles, h.tileEntries, h.tileContents]
  }

  function Bounds(h: Header): (s: seq<nat>)
    ensures |s| == 4
  {
    [Wrap32(h.minLon), Wrap32(h.minLat), Wrap32(h.maxLon), Wrap32(h.maxLat)]
  }

  function Center(h: Header): (s: seq<nat>)
    ensures |s| == 2
  {
    [Wrap32(h.centerLon), Wrap32(h.centerLat)]
  }

  function CompressionByte(c: Compression): u8 { if c.Gzipped? then 2 else 1 }

  function Flags(h: Header): (s: Bytes)
    ensures |s| == 6
  {
    [if h.clustered then 1 else 0, CompressionByte(h.internalCompression),
     CompressionByte(h.tileCompression), 1, h.minZoom, h.maxZoom]
  }

  // `to_bytes`
  function ToBytes(h: Header): (s: Bytes)
    ensures |s| == HEADER_LEN
  {
    MAGIC + [VERSION] + Fixed(Sizes(h), 8) + Flags(h) + Fixed(Bounds(h), 4) + [h.centerZoom] + Fixed(Center(h), 4)
  }

  function U64At(bytes: Bytes, i: nat): u64
    requires i + 8 <= |bytes|
  {
    Wrap64(FromLe(bytes[i..i + 8]))
  }

  function PositionAt(bytes: Bytes, i: nat): i32
    requires i + 4 <= |bytes|
  {
    Signed(Wrap32(FromLe(bytes[i..i + 4])))
  }

  // `from_bytes`
  function FromBytes(bytes: Bytes): HeaderResult {
    if |bytes| < HEADER_LEN then TooShort
    else if bytes[..7] != MAGIC then BadMagic
    else if bytes[7] != VERSION then BadVersion
    else if bytes[97] != 1 && bytes[97] != 2 then BadCompression
    else if bytes[98] != 1 && bytes[98] != 2 then BadCompression
    else if bytes[99] != 1 then BadTileType
    else Good(Header(
      U64At(bytes, 8), U64At(bytes, 16), U64At(bytes, 24), U64At(bytes, 32),
      U64At(bytes, 40), U64At(bytes, 48), U64At(bytes, 56), U64At(bytes, 64),
      U64At(bytes, 72), U64At(bytes, 80), U64At(bytes, 88),
      bytes[96] == 1, if bytes[97] == 1 then Uncompressed else Gzipped,
      if bytes[98] == 1 then Uncompressed else Gzipped, Mvt,
      bytes[100], bytes[101],
      PositionAt(bytes, 102), PositionAt(bytes, 106), PositionAt(bytes, 110), PositionAt(bytes, 114),
      bytes[118], PositionAt(bytes, 119), PositionAt(bytes, 123)))
  }

  // ------------------------------------------------------------- round trip

  // A slice of one part of a buffer, behind what precedes it.
  lemma SliceOfPart(buf: Bytes, pos: nat, part: Bytes, i: nat, n: nat)
    requires At(buf, pos, part) && i + n <= |part|
    ensures buf[pos + i..pos + i + n] == part[i..i + n]
  {
    var slice := buf[pos + i..pos + i + n];
    forall j | 0 <= j < n ensures slice[j] == part[i..i + n][j] {
      assert buf[pos + (i + j)] == part[i + j];
    }
  }

  lemma IntegerAt(buf: Bytes, pos: nat, vs: seq<nat>, n: nat, k: nat, i: nat)
    requires At(buf, pos, Fixed(vs, n)) && k < |vs| && vs[k] < Limit(n) && i == k * n
    ensures pos + i + n <= |buf| && FromLe(buf[pos + i..pos + i + n]) == vs[k]
  {
    FixedAt(vs, n, k);
    var part := Fixed(vs, n);
    assert i + n <= |part| && part[i..i + n] == Le(vs[k], n);
    SliceOfPart(buf, pos, part, i, n);
    FromLeOfLe(vs[k], n);
  }

  lemma SizeAt(buf: Bytes, h: Header, k: nat)
    requires At(buf, 8, Fixed(Sizes(h), 8)) && k < 11
    ensures 8 * k + 16 <= |buf| && U64At(buf, 8 + 8 * k) == Sizes(h)[k]
  {
    hide *;
    Limits();
    SizesAreWords(h, k);
    IntegerAt(buf, 8, Sizes(h), 8, k, 8 * k);
    WordAt(buf, 8 + 8 * k, Sizes(h)[k]);
  }

  lemma WordAt(buf: Bytes, i: nat, v: nat)
    requires i + 8 <= |buf| && FromLe(buf[i..i + 8]) == v < TWO_TO_THE_64
    ensures U64At(buf, i) == v
  {
    hide FromLe;
  }

  lemma SizesAreWords(h: Header, k: nat)
    requires k < 11
    ensures Sizes(h)[k] < TWO_TO_THE_64
  {}

  lemma BoundsAreWords(h: Header, k: nat)
    requires k < 4
    ensures Bounds(h)[k] < TWO_TO_THE_32
  {}

  lemma CenterIsWords(h: Header, k: nat)
    requires k < 2
    ensures Center(h)[k] < TWO_TO_THE_32
  {}

  lemma BoundAt(buf: Bytes, h: Header, k: nat)
    requires At(buf, 102, Fixed(Bounds(h), 4)) && k < 4
    ensures 106 + 4 * k <= |buf| && FromLe(buf[102 + 4 * k..102 + 4 * k + 4]) == Bounds(h)[k]
  {
    Limits();
    BoundsAreWords(h, k);
    hide Bounds, Fixed, FromLe, Limit, At;
    IntegerAt(buf, 102, Bounds(h), 4, k, 4 * k);
  }

  lemma CenterAt(buf: Bytes, h: Header, k: nat)
    requires At(buf, 119, Fixed(Center(h), 4)) && k < 2
    ensures 123 + 4 * k <= |buf| && FromLe(buf[119 + 4 * k..119 + 4 * k + 4]) == Center(h)[k]
  {
    Limits();
    CenterIsWords(h, k);
    hide Center, Fixed, FromLe, Limit, At;
    IntegerAt(buf, 119, Center(h), 4, k, 4 * k);
  }

  lemma PositionFromWord(buf: Bytes, i: nat, p: i32)
    requires i + 4 <= |buf| && FromLe(buf[i..i + 4]) == Wrap32(p)
    ensures PositionAt(buf, i) == p
  {
    WrapTwice(p);
    SignedOfWrap(p);
  }

  lemma WrapTwice(p: int)
    ensures Wrap32(Wrap32(p)) == Wrap32(p)
  {}

  // Where the parts of a header lie.
  lemma Layout(h: Header)
    ensures var s := ToBytes(h);
      && At(s, 0, MAGIC + [VERSION]) && At(s, 8, Fixed(Sizes(h), 8)) && At(s, 96, Flags(h))
      && At(s, 102, Fixed(Bounds(h), 4)) && At(s, 118, [h.centerZoom]) && At(s, 119, Fixed(Center(h), 4))
  {
    var a := MAGIC + [VERSION];
    var b := a + Fixed(Sizes(h), 8);
    var c := b + Flags(h);
    var d := c + Fixed(Bounds(h), 4);
    var e := d + [h.centerZoom];
    var s := ToBytes(h);
    assert s == e + Fixed(Center(h), 4);
    assert s[..8] == a && s[8..96] == Fixed(Sizes(h), 8) && s[96..102] == Flags(h);
    assert s[102..118] == Fixed(Bounds(h), 4) && s[118..119] == [h.centerZoom] && s[119..] == Fixed(Center(h), 4);
    AtSlice(s, 0, a); AtSlice(s, 8, Fixed(Sizes(h), 8)); AtSlice(s, 96, Flags(h));
    AtSlice(s, 102, Fixed(Bounds(h), 4)); AtSlice(s, 118, [h.centerZoom]); AtSlice(s, 119, Fixed(Center(h), 4));
  }

  lemma AtSlice(buf: Bytes, pos: nat, piece: Bytes)
    requires pos + |piece| <= |buf| && buf[pos..pos + |piece|] == piece
    ensures At(buf, pos, piece)
  {
    forall i | 0 <= i < |piece| ensures buf[pos + i] == piece[i] {
      assert buf[pos + i] == buf[pos..pos + |piece|][i];
    }
  }

  lemma StoredFlags(buf: Bytes, h: Header)
    requires |buf| >= HEADER_LEN && At(buf, 96, Flags(h)) && At(buf, 118, [h.centerZoom]) && At(buf, 0, MAGIC + [VERSION])
    ensures buf[..7] == MAGIC && buf[7] == VERSION
    ensures buf[96] == 1 <==> h.clustered
    ensures buf[97] == CompressionByte(h.internalCompression) && buf[98] == CompressionByte(h.tileCompression)
    ensures buf[99] == 1 && buf[100] == h.minZoom && buf[101] == h.maxZoom && buf[118] == h.centerZoom
  {
    var f := Flags(h);
    assert buf[96 + 0] == f[0] && buf[96 + 1] == f[1] && buf[96 + 2] == f[2];
    assert buf[96 + 3] == f[3] && buf[96 + 4] == f[4] && buf[96 + 5] == f[5];
    assert buf[118 + 0] == [h.centerZoom][0];
    var m := MAGIC + [VERSION];
    assert buf[0 + 7] == m[7];
    forall i | 0 <= i < 7 ensures buf[i] == MAGIC[i] { assert buf[0 + i] == m[i]; }
  }

  // Which headers are accepted, and what is wrong with the others: first the length, then
  // the name, the version, the compressions (1 none, 2 gzip) and the tile type.
  lemma FromBytesMeaning(bytes: Bytes)
    ensures FromBytes(bytes).TooShort? <==> |bytes| < 127
    ensures FromBytes(bytes).BadMagic? <==> |bytes| >= 127 && bytes[..7] != [0x50, 0x4D, 0x54, 0x69, 0x6C, 0x65, 0x73]
    ensures FromBytes(bytes).BadVersion? <==>
      |bytes| >= 127 && bytes[..7] == [0x50, 0x4D, 0x54, 0x69, 0x6C, 0x65, 0x73] && bytes[7] != 3
    ensures FromBytes(bytes).Good? || FromBytes(bytes).BadTileType? <==>
      && |bytes| >= 127 && bytes[..7] == [0x50, 0x4D, 0x54, 0x69, 0x6C, 0x65, 0x73] && bytes[7] == 3
      && 1 <= bytes[97] <= 2 && 1 <= bytes[98] <= 2
    ensures FromBytes(bytes).Good? ==> bytes[99] == 1
    ensures FromBytes(bytes).BadTileType? ==> bytes[99] != 1
  {
    hide U64At, PositionAt;
  }

  // Whatever follows it in the file, a written header is read back as it was.
  lemma HeaderRoundTrip(h: Header, rest: Bytes)
    ensures FromBytes(ToBytes(h) + rest) == Good(h)
  {
    hide *;
    var buf := ToBytes(h) + rest;
    Layout(h);
    AtInFront(ToBytes(h), rest, 0, MAGIC + [VERSION]);
    AtInFront(ToBytes(h), rest, 8, Fixed(Sizes(h), 8));
    AtInFront(ToBytes(h), rest, 96, Flags(h));
    AtInFront(ToBytes(h), rest, 102, Fixed(Bounds(h), 4));
    AtInFront(ToBytes(h), rest, 118, [h.centerZoom]);
    AtInFront(ToBytes(h), rest, 119, Fixed(Center(h), 4));
    LongEnough(h, rest);
    StoredFlags(buf, h);
    SizesBack(buf, h);
    PositionsBack(buf, h);
    FieldsBack(buf, h);
  }

  // Where each field stands among the 127 bytes of a version 3 header.
  lemma HeaderLayout(h: Header)
    ensures var s := ToBytes(h);
      && |s| == 127
      && U64At(s, 8) == h.rootOffset && U64At(s, 16) == h.rootLength
      && U64At(s, 24) == h.metadataOffset && U64At(s, 32) == h.metadataLength
      && U64At(s, 40) == h.leafOffset && U64At(s, 48) == h.leafLength
      && U64At(s, 56) == h.dataOffset && U64At(s, 64) == h.dataLength
      && U64At(s, 72) == h.addressedTiles && U64At(s, 80) == h.tileEntries && U64At(s, 88) == h.tileContents
      && (s[96] == 1 <==> h.clustered) && (s[97] == 2 <==> h.internalCompression.Gzipped?) && (s[98] == 2 <==> h.tileCompression.Gzipped?)
      && s[99] == 1 && s[100] == h.minZoom && s[101] == h.maxZoom
      && PositionAt(s, 102) == h.minLon && PositionAt(s, 106) == h.minLat
      && PositionAt(s, 110) == h.maxLon && PositionAt(s, 114) == h.maxLat
      && s[118] == h.centerZoom && PositionAt(s, 119) == h.centerLon && PositionAt(s, 123) == h.centerLat
  {
    HeaderRoundTrip(h, []);
    assert ToBytes(h) + [] == ToBytes(h);
    hide U64At, PositionAt, ToBytes;
  }

  lemma LongEnough(h: Header, rest: Bytes)
    ensures |ToBytes(h) + rest| >= HEADER_LEN
  {
    hide ToBytes;
  }

  // A buffer holding every field of a header reads as that header.
  lemma FieldsBack(buf: Bytes, h: Header)
    requires |buf| >= HEADER_LEN && buf[..7] == MAGIC && buf[7] == VERSION
    requires buf[96] == 1 <==> h.clustered
    requires buf[97] == CompressionByte(h.internalCompression) && buf[98] == CompressionByte(h.tileCompression)
    requires buf[99] == 1 && buf[100] == h.minZoom && buf[101] == h.maxZoom && buf[118] == h.centerZoom
    requires U64At(buf, 8) == h.rootOffset && U64At(buf, 16) == h.rootLength
    requires U64At(buf, 24) == h.metadataOffset && U64At(buf, 32) == h.metadataLength
    requires U64At(buf, 40) == h.leafOffset && U64At(buf, 48) == h.leafLength
    requires U64At(buf, 56) == h.dataOffset && U64At(buf, 64) == h.dataLength
    requires U64At(buf, 72) == h.addressedTiles && U64At(buf, 80) == h.tileEntries && U64At(buf, 88) == h.tileContents
    requires PositionAt(buf, 102) == h.minLon && PositionAt(buf, 106) == h.minLat
    requires PositionAt(buf, 110) == h.maxLon && PositionAt(buf, 114) == h.maxLat
    requires PositionAt(buf, 119) == h.centerLon && PositionAt(buf, 123) == h.centerLat
    ensures FromBytes(buf) == Good(h)
  {
    hide U64At, PositionAt;
  }

  lemma AtInFront(front: Bytes, rest: Bytes, pos: nat, piece: Bytes)
    requires At(front, pos, piece)
    ensures At(front + rest, pos, piece)
  {}

  lemma SizesBack(buf: Bytes, h: Header)
    requires |buf| >= HEADER_LEN && At(buf, 8, Fixed(Sizes(h), 8))
    ensures U64At(buf, 8) == h.rootOffset && U64At(buf, 16) == h.rootLength
    ensures U64At(buf, 24) == h.metadataOffset && U64At(buf, 32) == h.metadataLength
    ensures U64At(buf, 40) == h.leafOffset && U64At(buf, 48) == h.leafLength
    ensures U64At(buf, 56) == h.dataOffset && U64At(buf, 64) == h.dataLength
    ensures U64At(buf, 72) == h.addressedTiles && U64At(buf, 80) == h.tileEntries && U64At(buf, 88) == h.tileContents
  {
    SizeAt(buf, h, 0); SizeAt(buf, h, 1); SizeAt(buf, h, 2); SizeAt(buf, h, 3);
    SizeAt(buf, h, 4); SizeAt(buf, h, 5); SizeAt(buf, h, 6); SizeAt(buf, h, 7);
    SizeAt(buf, h, 8); SizeAt(buf, h, 9); SizeAt(buf, h, 10);
  }

  lemma PositionsBack(buf: Bytes, h: Header)
    requires |buf| >= HEADER_LEN && At(buf, 102, Fixed(Bounds(h), 4)) && At(buf, 119, Fixed(Center(h), 4))
    ensures PositionAt(buf, 102) == h.minLon && PositionAt(buf, 106) == h.minLat
    ensures PositionAt(buf, 110) == h.maxLon && PositionAt(buf, 114) == h.maxLat
    ensures PositionAt(buf, 119) == h.centerLon && PositionAt(buf, 123) == h.centerLat
  {
    hide At, Fixed, FromLe, PositionAt;
    BoundAt(buf, h, 0); PositionFromWord(buf, 102, h.minLon);
    BoundAt(buf, h, 1); PositionFromWord(buf, 106, h.minLat);
    BoundAt(buf, h, 2); PositionFromWord(buf, 110, h.maxLon);
    BoundAt(buf, h, 3); PositionFromWord(buf, 114, h.maxLat);
    CenterAt(buf, h, 0); PositionFromWord(buf, 119, h.centerLon);
    CenterAt(buf, h, 1); PositionFromWord(buf, 123, h.centerLat);
  }
}
