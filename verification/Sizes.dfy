// How large the directories of an archive become (src/pmtiles.rs): large enough that
// none the reader rejects fits its place, small enough that splitting always ends.

module Sizes {
  import opened Options
  import opened Words
  import opened Varint
  import opened Directory
  import opened Split
  import opened Reader

  // DEFLATE adds little to what it cannot compress, and cannot compress more than
  // 1032 to 1.
  ghost predicate Deflates(g: Gzip) {
    && (forall b: Bytes :: |g.zip(b)| <= |b| + |b| / 1000 + 64)
    && (forall b: Bytes :: |b| <= 1032 * |g.zip(b)|)
  }

  // ------------------------------------------------------------- varints

  lemma {:induction false} EncodeLength(v: nat, k: nat)
    requires k >= 1 && v < Pow2(7 * k)
    ensures |Encode(v)| <= k
  {
    if v >= 0x80 {
      Pow2Values();
      assert k > 1;
      Pow2Add(7, 7 * (k - 1));
      EncodeLength(v / 0x80, k - 1);
    }
  }

  lemma WordLengths(v: nat)
    ensures v < TWO_TO_THE_64 ==> |Encode(v)| <= 10
    ensures v < TWO_TO_THE_32 ==> |Encode(v)| <= 5
  {
    Pow2Values();
    Pow2Monotone(32, 35);
    Pow2Monotone(64, 70);
    if v < TWO_TO_THE_64 { EncodeLength(v, 10); }
    if v < TWO_TO_THE_32 { EncodeLength(v, 5); }
  }

  lemma {:induction false} ColumnLength(vs: seq<u64>, k: nat)
    requires forall i :: 0 <= i < |vs| ==> |Encode(vs[i])| <= k
    ensures |vs| <= |EncodeColumn(vs)| <= k * |vs|
  {
    if vs != [] {
      var n := |vs| - 1;
      assert forall i :: 0 <= i < n ==> vs[..n][i] == vs[i];
      ColumnLength(vs[..n], k);
      assert k * |vs| == k * n + k;
    }
  }

  lemma WordColumn(vs: seq<u64>)
    ensures |vs| <= |EncodeColumn(vs)| <= 10 * |vs|
    ensures (forall i :: 0 <= i < |vs| ==> vs[i] < TWO_TO_THE_32) ==> |EncodeColumn(vs)| <= 5 * |vs|
    ensures (forall i :: 0 <= i < |vs| ==> vs[i] == 0) ==> |EncodeColumn(vs)| <= |vs|
  {
    forall i | 0 <= i < |vs|
      ensures |Encode(vs[i])| <= 10
      ensures vs[i] < TWO_TO_THE_32 ==> |Encode(vs[i])| <= 5
    {
      WordLengths(vs[i]);
    }
    ColumnLength(vs, 10);
    if forall i :: 0 <= i < |vs| ==> vs[i] < TWO_TO_THE_32 { ColumnLength(vs, 5); }
    if forall i :: 0 <= i < |vs| ==> vs[i] == 0 { ColumnLength(vs, 1); }
  }

  // ------------------------------------------------------------- directories

  ghost predicate OnlyPointers(es: seq<Entry>) {
    forall i :: 0 <= i < |es| ==> es[i].runLength == 0
  }

  lemma SerializedParts(es: seq<Entry>)
    ensures |Serialize(es)| == |Encode(|es|)| + |EncodeColumn(Deltas(es))| + |EncodeColumn(Runs(es))|
      + |EncodeColumn(Lengths(es))| + |EncodeColumn(OffsetCodes(es))|
  {
    hide Encode, EncodeColumn, Deltas, Runs, Lengths, OffsetCodes;
  }

  lemma WideColumns(es: seq<Entry>)
    ensures |es| <= |EncodeColumn(Deltas(es))| <= 10 * |es|
    ensures |es| <= |EncodeColumn(OffsetCodes(es))| <= 10 * |es|
  {
    WordColumn(Deltas(es));
    WordColumn(OffsetCodes(es));
  }

  lemma NarrowColumns(es: seq<Entry>)
    ensures |es| <= |EncodeColumn(Runs(es))| <= 5 * |es|
    ensures |es| <= |EncodeColumn(Lengths(es))| <= 5 * |es|
    ensures OnlyPointers(es) ==> |EncodeColumn(Runs(es))| <= |es|
  {
    WordColumn(Runs(es));
    WordColumn(Lengths(es));
  }

  // At least four bytes an entry, at most thirty, at most twenty-six a pointer.
  lemma DirectoryLength(es: seq<Entry>)
    requires |es| < TWO_TO_THE_64
    ensures 4 * |es| < |Serialize(es)| <= 30 * |es| + 10
    ensures OnlyPointers(es) ==> |Serialize(es)| <= 26 * |es| + 10
  {
    WordLengths(|es|);
    SerializedParts(es);
    WideColumns(es);
    NarrowColumns(es);
    hide Encode, EncodeColumn, Deltas, Runs, Lengths, OffsetCodes, Serialize, OnlyPointers;
  }

  lemma WrittenLength(g: Gzip, es: seq<Entry>)
    requires Deflates(g) && |es| < TWO_TO_THE_64
    ensures |DirectoryWriter(g)(es)| <= 31 * |es| + 75
    ensures OnlyPointers(es) && |es| <= 512 ==> |DirectoryWriter(g)(es)| <= MAX_ROOT_DIR_LEN
    ensures |es| > MAX_ENTRIES ==> |DirectoryWriter(g)(es)| > MAX_ROOT_DIR_LEN
  {
    hide Serialize;
    DirectoryLength(es);
    assert DirectoryWriter(g)(es) == g.zip(Serialize(es));
  }

  // ------------------------------------------------------------- splits

  lemma {:induction false} SplitPointers(write: Writer, es: seq<Entry>, size: nat, base: nat, most: nat)
    requires size > 0 && |es| <= most * size
    ensures var root := SplitFrom(write, es, size, base).root;
      |root| <= most && |root| <= |es| && OnlyPointers(root)
    decreases |es|
  {
    if es != [] {
      var n := ChunkLen(es, size);
      assert most >= 1;
      assert (most - 1) * size == most * size - size;
      SplitPointers(write, es[n..], size, base + |write(es[..n])|, most - 1);
    }
  }

  // The leaves of a split fit their fields, and together stay below 106 bytes an entry.
  lemma {:induction false} LeavesLength(g: Gzip, es: seq<Entry>, size: nat, base: nat)
    requires Deflates(g) && 0 < size <= MAX_ENTRIES && base + 106 * |es| < TWO_TO_THE_64 - 1
    ensures SplitFits(DirectoryWriter(g), es, size, base)
    ensures |SplitFrom(DirectoryWriter(g), es, size, base).leaves| <= 106 * |es|
    decreases |es|
  {
    hide DirectoryWriter, Deflates;
    if es != [] {
      var n := ChunkLen(es, size);
      WrittenLength(g, es[..n]);
      LeavesLength(g, es[n..], size, base + |DirectoryWriter(g)(es[..n])|);
    }
  }

  // ------------------------------------------------------------- choosing a size

  const LARGEST_LEAF: nat := 0x80_0000

  // With fewer than 2^32 entries a leaf size of at most 2^23 is found.
  lemma {:induction false} TrySizesEnds(g: Gzip, es: seq<Entry>, size: nat, j: nat)
    requires Deflates(g) && |es| < TWO_TO_THE_32 && size > 0 && size * Pow2(j) == LARGEST_LEAF
    ensures TrySizes(DirectoryWriter(g), es, size).Some?
    ensures TrySizes(DirectoryWriter(g), es, size).value.leafSize <= LARGEST_LEAF
    decreases j
  {
    Pow2Positive(j);
    MulAtLeast(size, Pow2(j));
    var root := SplitFrom(DirectoryWriter(g), es, size, 0).root;
    if |es| <= 512 * size {
      SplitPointers(DirectoryWriter(g), es, size, 0, 512);
      WrittenLength(g, root);
    } else if |DirectoryWriter(g)(root)| > MAX_ROOT_DIR_LEN {
      assert j > 0;
      assert 2 * size * Pow2(j - 1) == size * (2 * Pow2(j - 1));
      TrySizesEnds(g, es, 2 * size, j - 1);
    }
  }

  // Building the directories never fails, its leaves are at most 2^23 entries long, and
  // what it writes fits the fields of the format.
  lemma BuildSucceeds(g: Gzip, es: seq<Entry>)
    requires Deflates(g) && |es| < TWO_TO_THE_32
    ensures BuildDirectories(DirectoryWriter(g), es).Some?
    ensures var b := BuildDirectories(DirectoryWriter(g), es).value;
      && b.leafSize <= LARGEST_LEAF && |b.leaves| <= 106 * |es|
      && (b.leafSize == 0 ==> |es| <= MAX_ENTRIES)
      && (b.leafSize > 0 ==>
        SplitFits(DirectoryWriter(g), es, b.leafSize, 0)
        && |SplitFrom(DirectoryWriter(g), es, b.leafSize, 0).root| <= MAX_ENTRIES)
  {
    var write := DirectoryWriter(g);
    if |write(es)| > MAX_ROOT_DIR_LEN {
      Pow2Values();
      Pow2Add(3, 8);
      assert FIRST_LEAF_SIZE * Pow2(11) == LARGEST_LEAF;
      TrySizesEnds(g, es, FIRST_LEAF_SIZE, 11);
    }
    hide DirectoryWriter, BuildDirectories, SplitFits, SplitFrom;
    WrittenLength(g, es);
    BuiltShape(write, es);
    var b := BuildDirectories(write, es).value;
    if b.leafSize > 0 {
      LeavesLength(g, es, b.leafSize, 0);
      AtLeast(|es|, b.leafSize);
      SplitPointers(write, es, b.leafSize, 0, |es|);
      WrittenLength(g, SplitFrom(write, es, b.leafSize, 0).root);
    }
  }

  lemma AtLeast(n: nat, k: nat)
    requires k >= 1
    ensures n <= n * k
  {
    if n > 0 { MulAtLeast(n, k); }
  }
}
