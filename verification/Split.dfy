// Root and leaf directories (src/pmtiles.rs): the split that makes the root fit
// one range request, and the lookup through it.

module Split {
  import opened Options
  import opened Words
  import opened Varint
  import opened Directory

  // How a directory is written: serialized, then compressed. The split only needs
  // that it is a function of the entries.
  type Writer = seq<Entry> -> Bytes

  // 16384 minus the header
  const MAX_ROOT_DIR_LEN: nat := 16384 - 127
  const FIRST_LEAF_SIZE: nat := 4096

  // ------------------------------------------------------------- lookup

  ghost predicate Sorted(es: seq<Entry>) {
    forall i, j :: 0 <= i < j < |es| ==> es[i].tileId <= es[j].tileId
  }

  // `entries.iter().rev().find(|e| e.tile_id <= wanted)`
  function Find(es: seq<Entry>, id: u64): Option<Entry> {
    if es == [] then None
    else if es[|es| - 1].tileId <= id then Some(es[|es| - 1])
    else Find(es[..|es| - 1], id)
  }

  ghost predicate IsLastAt(es: seq<Entry>, id: u64, i: int) {
    0 <= i < |es| && es[i].tileId <= id && forall j :: i < j < |es| ==> es[j].tileId > id
  }

  // In any list, Find gives the last entry that starts at or before the id.
  lemma {:induction false} FindGivesLast(es: seq<Entry>, id: u64)
    ensures Find(es, id).None? ==> forall i :: 0 <= i < |es| ==> es[i].tileId > id
    ensures Find(es, id).Some? ==> exists i :: IsLastAt(es, id, i) && es[i] == Find(es, id).value
  {
    if es != [] {
      var n := |es| - 1;
      FindGivesLast(es[..n], id);
      if es[n].tileId > id && Find(es, id).Some? {
        var i :| IsLastAt(es[..n], id, i) && es[..n][i] == Find(es, id).value;
        assert IsLastAt(es, id, i);
      } else if es[n].tileId <= id {
        assert IsLastAt(es, id, n);
      }
    }
  }

  lemma NothingFound(es: seq<Entry>, id: u64)
    requires forall i :: 0 <= i < |es| ==> es[i].tileId > id
    ensures Find(es, id).None?
  {
    FindGivesLast(es, id);
  }

  lemma {:induction false} FindAppend(a: seq<Entry>, b: seq<Entry>, id: u64)
    ensures Find(a + b, id) == if Find(b, id).Some? then Find(b, id) else Find(a, id)
  {
    if b == [] {
      assert a + b == a;
    } else {
      var n := |b| - 1;
      assert (a + b)[..|a| + n] == a + b[..n];
      FindAppend(a, b[..n], id);
    }
  }

  lemma FindInSorted(es: seq<Entry>, id: u64)
    requires es != [] && Sorted(es)
    ensures Find(es, id).Some? <==> es[0].tileId <= id
  {
    FindGivesLast(es, id);
  }

  // ------------------------------------------------------------- the split

  // Root pointers and leaf section for leaves of `size` entries, with `base`
  // bytes of leaves already written.
  datatype Halves = Halves(root: seq<Entry>, leaves: Bytes)

  function ChunkLen(es: seq<Entry>, size: nat): (n: nat)
    requires size > 0
    ensures n <= |es| && (es != [] ==> n > 0)
  {
    if |es| <= size then |es| else size
  }

  function SplitFrom(write: Writer, es: seq<Entry>, size: nat, base: nat): Halves
    requires size > 0
    decreases |es|
  {
    if es == [] then Halves([], [])
    else
      var n := ChunkLen(es, size);
      var leaf := write(es[..n]);
      var rest := SplitFrom(write, es[n..], size, base + |leaf|);
      Halves([Entry(es[0].tileId, Wrap64(base), Wrap32(|leaf|), 0)] + rest.root, leaf + rest.leaves)
  }

  // The leaf an id is looked up in.
  function LeafFor(es: seq<Entry>, size: nat, id: u64): (chunk: seq<Entry>)
    requires size > 0 && es != []
    decreases |es|
  {
    var n := ChunkLen(es, size);
    if n < |es| && es[n].tileId <= id then LeafFor(es[n..], size, id) else es[..n]
  }

  // No directory of the split is longer than a reader accepts, and no length or
  // offset outgrows its field.
  ghost predicate SplitFits(write: Writer, es: seq<Entry>, size: nat, base: nat)
    requires size > 0
    decreases |es|
  {
    es == [] ||
    (var n := ChunkLen(es, size);
    var leaf := write(es[..n]);
    && |leaf| < TWO_TO_THE_32
    && base + |leaf| < TWO_TO_THE_64 - 1
    && SplitFits(write, es[n..], size, base + |leaf|))
  }

  // Every root pointer starts with the id of some entry, so none starts earlier
  // than the first.
  lemma {:induction false} RootIds(write: Writer, es: seq<Entry>, size: nat, base: nat, low: int)
    requires size > 0 && forall i :: 0 <= i < |es| ==> es[i].tileId >= low
    ensures var root := SplitFrom(write, es, size, base).root;
      forall i :: 0 <= i < |root| ==> root[i].tileId >= low
    decreases |es|
  {
    if es != [] {
      var n := ChunkLen(es, size);
      RootIds(write, es[n..], size, base + |write(es[..n])|, low);
      var root := SplitFrom(write, es, size, base).root;
      forall i | 0 <= i < |root| ensures root[i].tileId >= low {
        if i == 0 { assert root[0].tileId == es[0].tileId; }
        else { assert root[i] == SplitFrom(write, es[n..], size, base + |write(es[..n])|).root[i - 1]; }
      }
    }
  }

  lemma SortedTail(es: seq<Entry>, n: nat)
    requires Sorted(es) && n <= |es|
    ensures Sorted(es[n..]) && Sorted(es[..n])
  {}

  // Looking an id up in its leaf finds what the flat list holds.
  lemma {:induction false} LeafAnswers(es: seq<Entry>, size: nat, id: u64)
    requires size > 0 && es != [] && Sorted(es)
    ensures Find(LeafFor(es, size, id), id) == Find(es, id)
    decreases |es|
  {
    var n := ChunkLen(es, size);
    SortedTail(es, n);
    assert es == es[..n] + es[n..];
    FindAppend(es[..n], es[n..], id);
    if n < |es| {
      FindInSorted(es[n..], id);
      if es[n].tileId <= id { LeafAnswers(es[n..], size, id); }
    }
  }

  // A root pointer leads to a leaf: `leaves` begins `base` bytes into the section.
  ghost predicate PointsAt(p: Entry, leaves: Bytes, base: nat, leaf: Bytes) {
    p.runLength == 0 && p.length == |leaf| && p.offset >= base && At(leaves, p.offset - base, leaf)
  }

  lemma PointsBehind(p: Entry, front: Bytes, leaves: Bytes, base: nat, leaf: Bytes)
    requires PointsAt(p, leaves, base + |front|, leaf)
    ensures PointsAt(p, front + leaves, base, leaf)
  {
    AtBehind(front, leaves, p.offset - base - |front|, leaf);
  }

  // One pointer in front of the others: either a later one is found, or this one.
  lemma PointsFurther(first: Entry, rest: Halves, leaf: Bytes, base: nat, id: u64, target: Bytes)
    requires Find(rest.root, id).Some? && PointsAt(Find(rest.root, id).value, rest.leaves, base + |leaf|, target)
    ensures var found := Find([first] + rest.root, id);
      found.Some? && PointsAt(found.value, leaf + rest.leaves, base, target)
  {
    FindThroughFirst(first, rest.root, id);
    PointsBehind(Find(rest.root, id).value, leaf, rest.leaves, base, target);
  }

  lemma PointsHere(first: Entry, rest: Halves, leaf: Bytes, base: nat, id: u64)
    requires Find(rest.root, id).None? && first.tileId <= id
    requires first.runLength == 0 && first.length == |leaf| && first.offset == base
    ensures var found := Find([first] + rest.root, id);
      found.Some? && PointsAt(found.value, leaf + rest.leaves, base, leaf)
  {
    FindThroughFirst(first, rest.root, id);
    AtHalves(leaf, rest.leaves);
  }

  lemma NothingInRest(write: Writer, es: seq<Entry>, size: nat, base: nat, id: u64)
    requires size > 0 && Sorted(es) && (es != [] ==> es[0].tileId > id)
    ensures Find(SplitFrom(write, es, size, base).root, id).None?
  {
    forall i | 0 <= i < |es| ensures es[i].tileId >= id + 1 {
      if i > 0 { assert es[0].tileId <= es[i].tileId; }
    }
    RootIds(write, es, size, base, id + 1);
    var root := SplitFrom(write, es, size, base).root;
    assert forall i :: 0 <= i < |root| ==> root[i].tileId >= id + 1;
    NothingFound(root, id);
  }

  // The root pointer found for an id is the one of its leaf.
  lemma {:induction false} RootPointsAtLeaf(write: Writer, es: seq<Entry>, size: nat, base: nat, id: u64)
    requires size > 0 && es != [] && Sorted(es) && SplitFits(write, es, size, base) && es[0].tileId <= id
    ensures
      var h := SplitFrom(write, es, size, base);
      Find(h.root, id).Some? && PointsAt(Find(h.root, id).value, h.leaves, base, write(LeafFor(es, size, id)))
    decreases |es|
  {
    var n := ChunkLen(es, size);
    var leaf := write(es[..n]);
    var tail := es[n..];
    var base' := base + |leaf|;
    var rest := SplitFrom(write, tail, size, base');
    var first := FirstPointer(write, es, size, base);
    SplitUnfolded(write, es, size, base);
    SortedTail(es, n);
    hide SplitFrom, Sorted, Find, PointsAt, FirstPointer;
    if n < |es| && es[n].tileId <= id {
      RootPointsAtLeaf(write, tail, size, base', id);
      PointsFurther(first, rest, leaf, base, id, write(LeafFor(tail, size, id)));
    } else {
      NothingInRest(write, tail, size, base', id);
      PointsHere(first, rest, leaf, base, id);
    }
  }

  function FirstPointer(write: Writer, es: seq<Entry>, size: nat, base: nat): Entry
    requires size > 0 && es != []
  {
    Entry(es[0].tileId, Wrap64(base), Wrap32(|write(es[..ChunkLen(es, size)])|), 0)
  }

  lemma SplitUnfolded(write: Writer, es: seq<Entry>, size: nat, base: nat)
    requires size > 0 && es != [] && SplitFits(write, es, size, base)
    ensures
      var n := ChunkLen(es, size);
      var leaf := write(es[..n]);
      var first := FirstPointer(write, es, size, base);
      var rest := SplitFrom(write, es[n..], size, base + |leaf|);
      && SplitFrom(write, es, size, base) == Halves([first] + rest.root, leaf + rest.leaves)
      && first.tileId == es[0].tileId && first.offset == base && first.length == |leaf| && first.runLength == 0
      && SplitFits(write, es[n..], size, base + |leaf|)
  {}

  lemma FindThroughFirst(first: Entry, rest: seq<Entry>, id: u64)
    ensures Find([first] + rest, id) ==
      if Find(rest, id).Some? then Find(rest, id)
      else if first.tileId <= id then Some(first) else None
  {
    FindAppend([first], rest, id);
    FindOne(first, id);
  }

  lemma FindOne(e: Entry, id: u64)
    ensures Find([e], id) == if e.tileId <= id then Some(e) else None
  {
    assert [e][..0] == [];
  }

  lemma AtBehind(front: Bytes, buf: Bytes, pos: nat, piece: Bytes)
    requires At(buf, pos, piece)
    ensures At(front + buf, |front| + pos, piece)
  {}

  // ------------------------------------------------------------- nothing lost

  // Read the leaves back in order: every pointer must start where the last one
  // ended, and the last one must end the section.
  function Rejoin(read: Bytes -> Option<seq<Entry>>, root: seq<Entry>, leaves: Bytes, base: nat): Option<seq<Entry>> {
    if root == [] then (if leaves == [] then Some([]) else None)
    else
      var p := root[0];
      if p.runLength != 0 || p.offset != base || p.length > |leaves| then None
      else
        match read(leaves[..p.length])
        case None => None
        case Some(chunk) =>
          match Rejoin(read, root[1..], leaves[p.length..], base + p.length)
          case None => None
          case Some(rest) => Some(chunk + rest)
  }

  // Offsets below the one value that has no code of its own.
  predicate OffsetsBelowMax(es: seq<Entry>) {
    forall i :: 0 <= i < |es| ==> es[i].offset < TWO_TO_THE_64 - 1
  }

  // A reader that undoes the writer on every directory of up to `limit` entries.
  ghost predicate Reads(read: Bytes -> Option<seq<Entry>>, write: Writer, limit: nat) {
    forall es: seq<Entry> :: |es| <= limit && OffsetsBelowMax(es) ==> read(write(es)) == Some(es)
  }

  lemma RejoinFirst(read: Bytes -> Option<seq<Entry>>, first: Entry, leaf: Bytes, chunk: seq<Entry>, rest: Halves, base: nat)
    requires first.runLength == 0 && first.offset == base && first.length == |leaf| && read(leaf) == Some(chunk)
    ensures Rejoin(read, [first] + rest.root, leaf + rest.leaves, base) ==
      match Rejoin(read, rest.root, rest.leaves, base + |leaf|)
      case None => None
      case Some(more) => Some(chunk + more)
  {
    var root, leaves := [first] + rest.root, leaf + rest.leaves;
    assert root[1..] == rest.root && leaves[..|leaf|] == leaf && leaves[|leaf|..] == rest.leaves;
  }

  lemma FirstChunkReads(read: Bytes -> Option<seq<Entry>>, write: Writer, es: seq<Entry>, size: nat)
    requires size > 0 && Reads(read, write, size) && OffsetsBelowMax(es)
    ensures var n := ChunkLen(es, size);
      read(write(es[..n])) == Some(es[..n]) && OffsetsBelowMax(es[n..])
  {
    assert OffsetsBelowMax(es[..ChunkLen(es, size)]);
  }

  // The leaves tile their section and hold the entries, in order, once each.
  lemma {:induction false} LeavesHoldEntries(read: Bytes -> Option<seq<Entry>>, write: Writer, es: seq<Entry>, size: nat, base: nat)
    requires size > 0 && SplitFits(write, es, size, base)
    requires Reads(read, write, size) && OffsetsBelowMax(es)
    ensures var h := SplitFrom(write, es, size, base); Rejoin(read, h.root, h.leaves, base) == Some(es)
    decreases |es|
  {
    hide SplitFrom, SplitFits, FirstPointer, Rejoin, OffsetsBelowMax, Reads;
    if es == [] {
      NoLeaves(read, write, es, size, base);
    } else {
      var n := ChunkLen(es, size);
      var leaf := write(es[..n]);
      var tail := es[n..];
      var rest := SplitFrom(write, tail, size, base + |leaf|);
      SplitUnfolded(write, es, size, base);
      FirstChunkReads(read, write, es, size);
      LeavesHoldEntries(read, write, tail, size, base + |leaf|);
      RejoinFirst(read, FirstPointer(write, es, size, base), leaf, es[..n], rest, base);
      TakeAndDrop(es, n);
    }
  }

  lemma NoLeaves(read: Bytes -> Option<seq<Entry>>, write: Writer, es: seq<Entry>, size: nat, base: nat)
    requires size > 0 && es == []
    ensures var h := SplitFrom(write, es, size, base); Rejoin(read, h.root, h.leaves, base) == Some(es)
  {}

  lemma TakeAndDrop(es: seq<Entry>, n: nat)
    requires n <= |es|
    ensures es[..n] + es[n..] == es
  {}

  // ------------------------------------------------------------- choosing a size

  // leafSize 0: everything stayed in the root.
  datatype Built = Built(root: Bytes, leaves: Bytes, leafCount: nat, leafSize: nat)

  function RootFor(write: Writer, es: seq<Entry>, size: nat): Bytes
    requires size > 0
  {
    write(SplitFrom(write, es, size, 0).root)
  }

  function TrySizes(write: Writer, es: seq<Entry>, size: nat): Option<Built>
    requires size > 0
    decreases if |es| > size then |es| - size else 0
  {
    var h := SplitFrom(write, es, size, 0);
    var root := write(h.root);
    if |root| <= MAX_ROOT_DIR_LEN then Some(Built(root, h.leaves, |h.root|, size))
    else if 2 * size > |es| then None
    else TrySizes(write, es, 2 * size)
  }

  function BuildDirectories(write: Writer, es: seq<Entry>): Option<Built> {
    var root := write(es);
    if |root| <= MAX_ROOT_DIR_LEN then Some(Built(root, [], 0, 0))
    else TrySizes(write, es, FIRST_LEAF_SIZE)
  }

  // A size the doubling can reach from `from`.
  function Doubled(from: nat, k: nat): nat {
    from * Pow2(k)
  }

  // Doubling stops at the first size whose root fits, or once leaves would be
  // longer than the whole list.
  lemma {:induction false} FirstSizeThatFits(write: Writer, es: seq<Entry>, size: nat) returns (k: nat)
    requires size > 0
    ensures forall i :: 0 <= i < k ==> Doubled(size, i) > 0 && |RootFor(write, es, Doubled(size, i))| > MAX_ROOT_DIR_LEN
    ensures TrySizes(write, es, size).Some? ==> (var b := TrySizes(write, es, size).value;
      && Doubled(size, k) > 0
      && b.leafSize == Doubled(size, k)
      && b.root == RootFor(write, es, Doubled(size, k))
      && b.leaves == SplitFrom(write, es, Doubled(size, k), 0).leaves
      && |b.root| <= MAX_ROOT_DIR_LEN)
    ensures TrySizes(write, es, size).None? ==> Doubled(size, k) > |es|
    decreases if |es| > size then |es| - size else 0
  {
    DoubledFirst(size);
    hide Doubled, SplitFrom, Pow2;
    if |RootFor(write, es, size)| <= MAX_ROOT_DIR_LEN {
      k := 0;
    } else if 2 * size > |es| {
      k := 1;
    } else {
      var k' := FirstSizeThatFits(write, es, 2 * size);
      k := k' + 1;
      DoubledNext(size, k');
      forall i | 0 <= i < k
        ensures Doubled(size, i) > 0 && |RootFor(write, es, Doubled(size, i))| > MAX_ROOT_DIR_LEN
      {
        if i > 0 { DoubledNext(size, i - 1); }
      }
    }
  }

  lemma DoubledFirst(size: nat)
    ensures Doubled(size, 0) == size && Doubled(size, 1) == 2 * size
  {
    assert Pow2(1) == 2 * Pow2(0);
  }

  lemma DoubledNext(size: nat, i: nat)
    ensures Doubled(size, i + 1) == Doubled(2 * size, i)
  {
    assert size * (2 * Pow2(i)) == (2 * size) * Pow2(i);
  }

  // Whatever `build_directories` returns fits the first range request beside the
  // header, and is the flat list or a split of it.
  lemma BuiltShape(write: Writer, es: seq<Entry>)
    requires BuildDirectories(write, es).Some?
    ensures var b := BuildDirectories(write, es).value;
      && |b.root| <= MAX_ROOT_DIR_LEN && 127 + |b.root| <= 16384
      && (b.leafSize == 0 ==> b.root == write(es) && b.leaves == [])
      && (b.leafSize > 0 ==>
        && b.leafSize >= FIRST_LEAF_SIZE
        && b.root == RootFor(write, es, b.leafSize)
        && b.leaves == SplitFrom(write, es, b.leafSize, 0).leaves
        && |write(es)| > MAX_ROOT_DIR_LEN)
  {
    if |write(es)| > MAX_ROOT_DIR_LEN {
      var k := FirstSizeThatFits(write, es, FIRST_LEAF_SIZE);
      Pow2Positive(k);
      MulAtLeast(FIRST_LEAF_SIZE, Pow2(k));
    }
  }

  // ------------------------------------------------------------- the loops

  // One pass over `entries.chunks(leaf_size)`.
  method SplitChunks(write: Writer, entries: seq<Entry>, size: nat) returns (root: seq<Entry>, leaves: Bytes)
    requires size > 0
    ensures Halves(root, leaves) == SplitFrom(write, entries, size, 0)
  {
    root, leaves := [], [];
    var rest := entries;
    while rest != []
      invariant var more := SplitFrom(write, rest, size, |leaves|);
        Halves(root + more.root, leaves + more.leaves) == SplitFrom(write, entries, size, 0)
      decreases |rest|
    {
      ghost var before := SplitFrom(write, rest, size, |leaves|);
      var n := ChunkLen(rest, size);
      var chunk := rest[..n];
      var leaf := write(chunk);
      ghost var more := SplitFrom(write, rest[n..], size, |leaves| + |leaf|);
      var pointer := Entry(chunk[0].tileId, Wrap64(|leaves|), Wrap32(|leaf|), 0);
      assert before == Halves([pointer] + more.root, leaf + more.leaves);
      assert root + before.root == (root + [pointer]) + more.root;
      assert leaves + before.leaves == (leaves + leaf) + more.leaves;
      root := root + [pointer];
      leaves := leaves + leaf;
      rest := rest[n..];
    }
    assert root + [] == root && leaves + [] == leaves;
  }

  // `build_directories`
  method ChooseDirectories(write: Writer, entries: seq<Entry>) returns (r: Option<Built>)
    ensures r == BuildDirectories(write, entries)
  {
    var flat := write(entries);
    if |flat| <= MAX_ROOT_DIR_LEN { return Some(Built(flat, [], 0, 0)); }
    var leafSize := FIRST_LEAF_SIZE;
    while true
      invariant leafSize > 0
      invariant TrySizes(write, entries, leafSize) == BuildDirectories(write, entries)
      decreases if |entries| > leafSize then |entries| - leafSize else 0
    {
      var rootEntries, leaves := SplitChunks(write, entries, leafSize);
      var root := write(rootEntries);
      if |root| <= MAX_ROOT_DIR_LEN { return Some(Built(root, leaves, |rootEntries|, leafSize)); }
      if 2 * leafSize > |entries| { return None; }
      leafSize := leafSize * 2;
    }
  }
}
