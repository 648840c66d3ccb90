/**
  Listing all blocks of a file by walking its header and extension chain, and
  freeing them. Models the value level of adfGetFileBlocks and adfFreeFileBlocks.
*/
module FileBlocks {
  import opened FileUtil
  import opened Blocks
  import opened FileSpec
  import opened FileInv

  datatype BlockList = BlockList(data: seq<int>, exts: seq<int>)

  /** The first `n` pointers of a node. */
  function FirstSlots(x: Node, n: nat): (r: seq<int>)
    requires n <= 72
    ensures |r| == n
    ensures forall k :: 0 <= k < n ==> r[k] == Slot(x, k)
  {
    if n == 0 then [] else FirstSlots(x, n - 1) + [Slot(x, n - 1)]
  }

  /**
    The extension blocks from `key` on and the data blocks they list. None when one
    cannot be read, or the chain is longer than `left`, the number the size calls for.
  */
  function WalkExts(v: Vol, key: int, left: nat): Option<BlockList>
    decreases left
  {
    if key == 0 then Some(BlockList([], []))
    else if left == 0 then None
    else
      match ReadNode(v, key)
      case None => None
      case Some(x) =>
        if x.highSeq > 72 then None
        else
          match WalkExts(v, x.extension, left - 1)
          case None => None
          case Some(rest) => Some(BlockList(FirstSlots(x, Max(x.highSeq, 0)) + rest.data, [key] + rest.exts))
  }

  /** The walk from extension block `key` on finds no more sectors than there is room for in the two vectors. */
  predicate WalkFits(v: Vol, key: int, dataRoom: nat, extRoom: nat)
    decreases extRoom
  {
    key == 0
    || (extRoom > 0
        && match ReadNode(v, key)
           case None => true
           case Some(x) =>
             && x.highSeq <= 72 && x.highSeq <= dataRoom
             && WalkFits(v, x.extension, dataRoom - Max(x.highSeq, 0), extRoom - 1))
  }

  /** adfGetFileBlocks; it fails for a file without data blocks, since a vector of no items has no memory. */
  function GetFileBlocks(v: Vol, entry: Node): Option<BlockList> {
    var size := RealSize(entry.byteSize, FFS_BLOCK);
    if Min(size.data, MAX_DATABLK) != entry.highSeq || size.data == 0 then None
    else
      var walk := if size.ext > 0 then WalkExts(v, entry.extension, size.ext) else Some(BlockList([], []));
      match walk
      case None => None
      case Some(b) =>
        var all := BlockList(FirstSlots(entry, entry.highSeq) + b.data, b.exts);
        if |all.data| != size.data || |all.exts| != size.ext then None else Some(all)
  }

  /** The vectors that are made for the size of a file have room for the sectors that are found. */
  predicate BlocksFit(v: Vol, entry: Node) {
    var size := RealSize(entry.byteSize, FFS_BLOCK);
    Min(size.data, MAX_DATABLK) == entry.highSeq && size.ext > 0 ==>
      WalkFits(v, entry.extension, size.data - entry.highSeq, size.ext)
  }

  lemma {:induction false} WalkFoundFits(v: Vol, key: int, dataRoom: nat, extRoom: nat)
    requires WalkExts(v, key, extRoom).Some? && |WalkExts(v, key, extRoom).value.data| <= dataRoom
    ensures WalkFits(v, key, dataRoom, extRoom)
    decreases extRoom
  {
    if key != 0 {
      var x := ReadNode(v, key).value;
      WalkFoundFits(v, x.extension, dataRoom - Max(x.highSeq, 0), extRoom - 1);
    }
  }

  /** The vectors have room for all entries whose blocks are found; only damaged ones can exceed them. */
  lemma FoundBlocksFit(v: Vol, entry: Node)
    requires GetFileBlocks(v, entry).Some?
    ensures BlocksFit(v, entry)
    ensures var size, b := RealSize(entry.byteSize, FFS_BLOCK), GetFileBlocks(v, entry).value;
            |b.data| == size.data > 0 && |b.exts| == size.ext && entry.highSeq == if size.data < 72 then size.data else 72
  {
    hide RealSize, WalkExts, WalkFits;
    var size := RealSize(entry.byteSize, FFS_BLOCK);
    if size.ext > 0 {
      WalkFoundFits(v, entry.extension, size.data - entry.highSeq, size.ext);
    }
  }

  /** adfFreeFileBlocks */
  function FreeFileBlocks(v: Vol, entry: Node): Option<Vol> {
    match GetFileBlocks(v, entry)
    case None => None
    case Some(b) => Some(v.(free := v.free + Elements(b.data) + Elements(b.exts)))
  }

  /* ---- the walk finds the layout ---- */

  lemma StoredNumbers(v: Vol, hdr: Node, L: Layout)
    requires Base(v, hdr, L)
    ensures var size := RealSize(hdr.byteSize, FFS_BLOCK);
            size.data == |L.data| && size.ext == |L.exts| && size.total == BlocksOf(|L.data|)
  {
    RealSizeAgrees(hdr.byteSize, FFS_BLOCK);
    var n := |L.data|;
    if n > 0 {
      Size2DatablocksLeast(hdr.byteSize, FFS_BLOCK, n);
      Size2DatablocksLeast(hdr.byteSize, FFS_BLOCK, n - 1);
    }
  }

  /** What one extension block lists. */
  lemma ExtLists(x: Node, L: Layout, j: nat)
    requires ExtOK(x, L, j) && j < |L.exts| == Datablocks2Extblocks(|L.data|)
    ensures 0 < x.highSeq <= 72
    ensures var from := MAX_DATABLK * (j + 1);
            && from + x.highSeq <= |L.data|
            && (if j + 1 < |L.exts| then x.highSeq == MAX_DATABLK else from + x.highSeq == |L.data|)
            && FirstSlots(x, x.highSeq) == L.data[from..from + x.highSeq]
  {
    var from := MAX_DATABLK * (j + 1);
    forall k | 0 <= k < x.highSeq ensures FirstSlots(x, x.highSeq)[k] == L.data[from..from + x.highSeq][k] {
      assert FirstSlots(x, x.highSeq)[k] == Slot(x, k);
    }
  }

  lemma StoredExt(v: Vol, hdr: Node, L: Layout, j: nat)
    requires ChainOnDisk(v, hdr, L) && j < |L.exts|
    ensures |L.exts| == Datablocks2Extblocks(|L.data|) && L.exts[j] != 0
    ensures var x := ReadNode(v, L.exts[j]);
            && x.Some? && ExtOK(x.value, L, j)
            && x.value.extension == PtrOrZero(L.exts, j + 1)
  {
    assert ExtOnDisk(v, L, j);
    assert L.own[L.exts[j]] == IsExt(j);
  }

  /** The data blocks that extension block `j` and its successors list. */
  function DataFrom(L: Layout, j: nat): seq<int> {
    if MAX_DATABLK * (j + 1) <= |L.data| then L.data[MAX_DATABLK * (j + 1)..] else []
  }

  lemma WalkStep(v: Vol, key: int, left: nat, x: Node, rest: BlockList)
    requires key != 0 && left > 0 && ReadNode(v, key) == Some(x) && 0 <= x.highSeq <= 72
    requires WalkExts(v, x.extension, left - 1) == Some(rest)
    ensures WalkExts(v, key, left) == Some(BlockList(FirstSlots(x, x.highSeq) + rest.data, [key] + rest.exts))
  {
  }

  function ListFrom(L: Layout, j: nat): BlockList
    requires j <= |L.exts|
  {
    BlockList(if j < |L.exts| then DataFrom(L, j) else [], L.exts[j..])
  }

  lemma ListStep(x: Node, L: Layout, j: nat)
    requires ExtOK(x, L, j) && j < |L.exts| == Datablocks2Extblocks(|L.data|)
    ensures 0 < x.highSeq <= 72
    ensures var rest := ListFrom(L, j + 1);
            ListFrom(L, j) == BlockList(FirstSlots(x, x.highSeq) + rest.data, [L.exts[j]] + rest.exts)
  {
    ExtLists(x, L, j);
    hide ExtOK, FirstSlots;
    var from, to := MAX_DATABLK * (j + 1), MAX_DATABLK * (j + 1) + x.highSeq;
    CutAt(L.data, from, to);
    assert L.exts[j..] == [L.exts[j]] + L.exts[j + 1..];
    assert (if j + 1 < |L.exts| then DataFrom(L, j + 1) else []) == L.data[to..];
  }

  lemma CutAt(s: seq<int>, from: nat, to: nat)
    requires from <= to <= |s|
    ensures s[from..] == s[from..to] + s[to..]
  {
  }

  /** From extension block `j` on the walk lists the data blocks that block and its successors hold. */
  lemma {:induction false} WalkFrom(v: Vol, hdr: Node, L: Layout, j: nat)
    requires ChainOnDisk(v, hdr, L) && j <= |L.exts|
    ensures WalkExts(v, PtrOrZero(L.exts, j), |L.exts| - j) == Some(ListFrom(L, j))
    decreases |L.exts| - j
  {
    hide ChainOnDisk, FirstSlots, ExtOK, WalkExts, ListFrom, ReadNode;
    if j < |L.exts| {
      WalkFrom(v, hdr, L, j + 1);
      StoredExt(v, hdr, L, j);
      var x := ReadNode(v, L.exts[j]).value;
      ListStep(x, L, j);
      WalkStep(v, L.exts[j], |L.exts| - j, x, ListFrom(L, j + 1));
    } else {
      WalkEnd(v, L);
    }
  }

  /** The vectors have room for the blocks of a file that is on the disk. */
  lemma {:induction false} ChainWalkFits(v: Vol, hdr: Node, L: Layout, j: nat)
    requires ChainOnDisk(v, hdr, L) && j <= |L.exts| && (j < |L.exts| ==> MAX_DATABLK * (j + 1) <= |L.data|)
    ensures WalkFits(v, PtrOrZero(L.exts, j), if j < |L.exts| then |L.data| - MAX_DATABLK * (j + 1) else 0, |L.exts| - j)
    decreases |L.exts| - j
  {
    hide ChainOnDisk, WalkFits, ReadNode;
    if j < |L.exts| {
      StoredExt(v, hdr, L, j);
      var x := ReadNode(v, L.exts[j]).value;
      LastOrFull(v, hdr, x, L, j);
      ChainWalkFits(v, hdr, L, j + 1);
      var room: nat := |L.data| - MAX_DATABLK * (j + 1);
      FitsStep(v, L.exts[j], room, |L.exts| - j, x);
    } else {
      FitsEnd(v);
    }
  }

  lemma FitsEnd(v: Vol)
    ensures WalkFits(v, 0, 0, 0)
  {
  }

  lemma FitsStep(v: Vol, key: int, dataRoom: nat, extRoom: nat, x: Node)
    requires extRoom > 0 && ReadNode(v, key) == Some(x) && x.highSeq <= 72 && x.highSeq <= dataRoom
    requires WalkFits(v, x.extension, dataRoom - Max(x.highSeq, 0), extRoom - 1)
    ensures WalkFits(v, key, dataRoom, extRoom)
  {
  }

  /** An extension block that is not the last one is full. */
  lemma LastOrFull(v: Vol, hdr: Node, x: Node, L: Layout, j: nat)
    requires ChainOnDisk(v, hdr, L) && j < |L.exts| && ExtOK(x, L, j)
    ensures x.highSeq <= 72 && x.extension == PtrOrZero(L.exts, j + 1) && 0 <= x.highSeq <= |L.data| - MAX_DATABLK * (j + 1)
    ensures j + 1 < |L.exts| ==> x.highSeq == MAX_DATABLK && MAX_DATABLK * (j + 2) <= |L.data|
    ensures j + 1 == |L.exts| ==> x.highSeq == |L.data| - MAX_DATABLK * (j + 1)
  {
    assert |L.exts| == Datablocks2Extblocks(|L.data|);
  }

  lemma ChainFits(v: Vol, hdr: Node, L: Layout)
    requires ChainOnDisk(v, hdr, L)
    ensures BlocksFit(v, hdr)
  {
    StoredNumbers(v, hdr, L);
    HdrLists(hdr, L);
    if L.exts != [] {
      assert |L.data| > MAX_DATABLK;
      ChainWalkFits(v, hdr, L, 0);
    }
  }

  /** Walking a file does not depend on which sectors are free. */
  lemma {:induction false} SameWalk(v: Vol, w: Vol, key: int, left: nat)
    requires w == v.(free := w.free)
    ensures WalkExts(w, key, left) == WalkExts(v, key, left)
    decreases left
  {
    if key != 0 && left > 0 {
      assert ReadNode(w, key) == ReadNode(v, key);
      if ReadNode(v, key).Some? {
        SameWalk(v, w, ReadNode(v, key).value.extension, left - 1);
      }
    }
  }

  lemma {:induction false} SameFits(v: Vol, w: Vol, key: int, dataRoom: nat, extRoom: nat)
    requires w == v.(free := w.free)
    ensures WalkFits(w, key, dataRoom, extRoom) == WalkFits(v, key, dataRoom, extRoom)
    decreases extRoom
  {
    if key != 0 && extRoom > 0 {
      assert ReadNode(w, key) == ReadNode(v, key);
      if ReadNode(v, key).Some? && ReadNode(v, key).value.highSeq <= dataRoom {
        var x := ReadNode(v, key).value;
        SameFits(v, w, x.extension, dataRoom - Max(x.highSeq, 0), extRoom - 1);
      }
    }
  }

  lemma SameBlocksFound(v: Vol, w: Vol, entry: Node)
    requires w == v.(free := w.free)
    ensures GetFileBlocks(w, entry) == GetFileBlocks(v, entry)
    ensures BlocksFit(w, entry) == BlocksFit(v, entry)
  {
    var size := RealSize(entry.byteSize, FFS_BLOCK);
    SameWalk(v, w, entry.extension, size.ext);
    if Min(size.data, MAX_DATABLK) == entry.highSeq {
      SameFits(v, w, entry.extension, size.data - entry.highSeq, size.ext);
    }
    hide WalkExts, WalkFits;
  }

  lemma WalkEnd(v: Vol, L: Layout)
    ensures WalkExts(v, 0, 0) == Some(ListFrom(L, |L.exts|))
  {
    assert L.exts[|L.exts|..] == [];
  }

  lemma HdrLists(hdr: Node, L: Layout)
    requires HdrOK(hdr, L)
    ensures 0 <= hdr.highSeq <= |L.data| && hdr.highSeq == Min(|L.data|, MAX_DATABLK)
    ensures FirstSlots(hdr, hdr.highSeq) == L.data[..hdr.highSeq]
  {
    forall k | 0 <= k < hdr.highSeq ensures FirstSlots(hdr, hdr.highSeq)[k] == L.data[k] {
      assert FirstSlots(hdr, hdr.highSeq)[k] == Slot(hdr, k);
    }
  }

  lemma GetUnfolds(v: Vol, entry: Node, data: nat, ext: nat, b: BlockList)
    requires RealSize(entry.byteSize, FFS_BLOCK).data == data && RealSize(entry.byteSize, FFS_BLOCK).ext == ext
    requires entry.highSeq == Min(data, MAX_DATABLK) && data > 0
    requires if ext > 0 then WalkExts(v, entry.extension, ext) == Some(b) else b == BlockList([], [])
    requires entry.highSeq + |b.data| == data && |b.exts| == ext
    ensures GetFileBlocks(v, entry) == Some(BlockList(FirstSlots(entry, entry.highSeq) + b.data, b.exts))
  {
    hide RealSize, WalkExts;
  }

  lemma HdrThenExts(L: Layout, m: nat)
    requires m == Min(|L.data|, MAX_DATABLK) && |L.exts| == Datablocks2Extblocks(|L.data|)
    ensures L.data[..m] + ListFrom(L, 0).data == L.data && ListFrom(L, 0).exts == L.exts
    ensures L.exts == [] ==> ListFrom(L, 0) == BlockList([], [])
  {
  }

  /** Walking a stored file yields its data and extension sectors in file order, and fails if it is empty. */
  lemma WalkYieldsLayout(v: Vol, hdr: Node, L: Layout)
    requires ChainOnDisk(v, hdr, L)
    ensures GetFileBlocks(v, hdr) == if L.data == [] then None else Some(BlockList(L.data, L.exts))
  {
    StoredNumbers(v, hdr, L);
    HdrLists(hdr, L);
    WalkFrom(v, hdr, L, 0);
    HdrThenExts(L, hdr.highSeq);
    if L.data != [] {
      GetUnfolds(v, hdr, |L.data|, |L.exts|, ListFrom(L, 0)) by {
        hide WalkExts, ListFrom, RealSize;
      }
    }
  }

  /** A file has no data blocks exactly if it has no bytes, and then it has no sector but that of its header. */
  lemma EmptyIsHeader(v: Vol, hdr: Node, L: Layout)
    requires Base(v, hdr, L)
    ensures L.data == [] <==> hdr.byteSize == 0
    ensures L.data == [] ==> L.own.Keys == {L.header}
  {
    if L.data == [] {
      OwnIsElements(L);
      assert L.exts == [];
    }
  }

  lemma OwnIsElements(L: Layout)
    requires OwnOK(L)
    ensures L.own.Keys == Elements(L.data) + Elements(L.exts) + {L.header}
    ensures Elements(L.data) !! Elements(L.exts) && L.header !in Elements(L.data) + Elements(L.exts)
  {
    forall x ensures x in L.own.Keys <==> x in Elements(L.data) + Elements(L.exts) + {L.header} {
      if x in L.own {
        match L.own[x]
        case IsHeader =>
        case IsData(i) => assert L.data[i] == x;
        case IsExt(j) => assert L.exts[j] == x;
      }
    }
  }

  lemma {:induction false} CountElements(s: seq<int>)
    requires NoDuplicates(s)
    ensures |Elements(s)| == |s|
  {
    if s != [] {
      var x, init := s[|s| - 1], s[..|s| - 1];
      CountElements(init);
      assert Elements(s) == Elements(init) + {x};
    }
  }

  lemma OwnCount(L: Layout)
    requires OwnOK(L)
    ensures |L.own.Keys| == |L.data| + |L.exts| + 1
  {
    OwnIsElements(L);
    forall i, j | 0 <= i < j < |L.data| ensures L.data[i] != L.data[j] {
      assert L.own[L.data[i]] == IsData(i) && L.own[L.data[j]] == IsData(j);
    }
    forall i, j | 0 <= i < j < |L.exts| ensures L.exts[i] != L.exts[j] {
      assert L.own[L.exts[i]] == IsExt(i) && L.own[L.exts[j]] == IsExt(j);
    }
    CountElements(L.data);
    CountElements(L.exts);
  }

  lemma StoredOwn(v: Vol, hdr: Node, L: Layout)
    requires ChainOnDisk(v, hdr, L)
    ensures OwnOK(L) && v.free !! L.own.Keys
  {
    assert forall s :: s in L.own.Keys ==> s !in v.free;
  }

  /** Removing a file frees exactly the blocks its size stands for, and fails if it is empty. */
  lemma RemoveFreesRealSize(v: Vol, hdr: Node, L: Layout)
    requires ChainOnDisk(v, hdr, L)
    ensures var freed := FreeFileBlocks(v, hdr);
            && (freed.Some? <==> hdr.byteSize > 0)
            && (freed.Some? ==>
                  && freed.value == v.(free := freed.value.free)
                  && freed.value.free + {L.header} == v.free + L.own.Keys
                  && |freed.value.free + {L.header}| == |v.free| + RealSize(hdr.byteSize, FFS_BLOCK).total)
  {
    EmptyIsHeader(v, hdr, L);
    hide ChainOnDisk, GetFileBlocks, RealSize, OwnOK, Base, Elements;
    WalkYieldsLayout(v, hdr, L);
    StoredOwn(v, hdr, L);
    OwnIsElements(L);
    OwnCount(L);
    StoredSizes(v, hdr, L);
    if L.data != [] {
      JoinedFree(v.free, Elements(L.data), Elements(L.exts), {L.header}, L.own.Keys);
    }
  }

  lemma JoinedFree(free: set<int>, a: set<int>, b: set<int>, c: set<int>, own: set<int>)
    requires own == a + b + c && free !! own
    ensures free + a + b + c == free + own && |free + a + b + c| == |free| + |own|
  {
    assert free + a + b + c == free + own;
    assert |free + own| == |free| + |own|;
  }

  lemma StoredSizes(v: Vol, hdr: Node, L: Layout)
    requires ChainOnDisk(v, hdr, L)
    ensures RealSize(hdr.byteSize, FFS_BLOCK).total == |L.data| + |L.exts| + 1
  {
    StoredNumbers(v, hdr, L);
  }
}
