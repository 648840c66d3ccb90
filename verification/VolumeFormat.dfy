/** Formatting a volume. Models adfVolCreate and adfCreateBitmap. */
module VolumeFormat {
  import opened FileUtil
  import opened Blocks
  import opened FileSpec
  import opened DirInv
  import opened DirLink
  import opened DirSpec
  import opened Dir
  import opened Bitmap
  import opened Volume
  import opened BitmapPages
  import opened VolumeRuns

  /** The sectors from `from` to `last`. */
  ghost function SectorsFrom(from: nat, last: nat): (r: set<int>)
    requires from <= last
    ensures forall s :: s in r <==> from <= s <= last
    ensures |r| == last + 1 - from
  {
    if from == last then {last} else SectorsFrom(from, last - 1) + {last}
  }

  /** The sectors that adfCreateBitmap marks as free. */
  ghost function CreatedFree(firstBlock: nat, last: nat): set<int> {
    if firstBlock + 2 <= last then SectorsFrom(firstBlock + 2, last) else {}
  }

  /** adfCreateBitmap */
  method CreateBitmap(vol: AdfVolume)
    requires vol.Valid() && vol.firstBlock >= 0
    modifies vol.Bits()
    ensures vol.Valid()
    ensures vol.V() == old(vol.V()).(free := old(vol.Free()) + CreatedFree(vol.firstBlock, vol.Last()))
  {
    var i := vol.firstBlock + 2;
    while i <= vol.Last()
      invariant vol.firstBlock + 2 <= i && vol.Valid() && vol.disk[..] == old(vol.disk[..])
      invariant forall s :: s in vol.Free() <==> s in old(vol.Free()) || (vol.firstBlock + 2 <= s < i && s <= vol.Last())
    {
      vol.SetBlockFree(i);
      i := i + 1;
    }
  }

  /**
    All sectors of a volume are free after adfCreateBitmap exactly if those below the number
    of its first one were so before; whatever the bitmap said, if the volume begins with its device.
  */
  lemma CreatedFreeExact(firstBlock: nat, last: nat, before: set<int>)
    requires last >= 2
    ensures before + CreatedFree(firstBlock, last) >= SectorsFrom(2, last) <==>
            forall s :: 2 <= s <= last && s < firstBlock + 2 ==> s in before
    ensures CreatedFree(firstBlock, last) == SectorsFrom(2, last) <==> firstBlock == 0
  {
    if before + CreatedFree(firstBlock, last) >= SectorsFrom(2, last) {
      forall s | 2 <= s <= last && s < firstBlock + 2 ensures s in before {
        assert s in SectorsFrom(2, last);
      }
    }
    assert 2 in SectorsFrom(2, last);
  }

  /** How many sectors a volume may have for the root to have a pointer for every page of its bitmap. */
  lemma RootHoldsPages(last: nat)
    requires last >= 2
    ensures BitmapSize(last - 1) <= BM_PAGES_ROOT_SIZE <==> last - 1 <= 101600
  {
  }

  /** The block of a root that lists nothing. */
  function RootNode(): Node {
    SealRoot(Node(0, 0, 0, 0, NoSlots(), 0, [], 0, 0, 0, 0))
  }

  /** When all sectors are free, the scan begins with the root block. */
  lemma {:induction false} ScanBeginsWithRoot(free: set<int>, root: int, last: int, k: nat)
    requires root in free && 2 < root <= last && k > 0
    ensures var o := FreeInOrder(free, root, last, k); o != [] && o[0] == root
  {
    if k > 1 {
      ScanBeginsWithRoot(free, root, last, k - 1);
    }
  }

  lemma RootIsFirst(v: Vol)
    requires VolOK(v) && v.root in v.free
    ensures v.free != {} && |v.free| >= 1 && FirstSectors(v, 1) == [v.root]
  {
    ScanBeginsWithRoot(v.free, v.root, v.last, v.last - 1);
  }

  /** The sectors that are taken for the pages and for the extension blocks of a new bitmap. */
  lemma NewBitmapSectors(v: Vol, size: nat) returns (sects: seq<int>, extSects: seq<int>)
    requires VolOK(v) && size + ExtCount(size) <= |v.free|
    ensures sects == FirstSectors(v, size) && VolOK(WithoutSectors(v, sects))
    ensures extSects == FirstSectors(WithoutSectors(v, sects), ExtCount(size))
    ensures |sects| == size && |extSects| == ExtCount(size) && NoDuplicates(sects)
    ensures Elements(sects) !! Elements(extSects) && Elements(sects) + Elements(extSects) <= v.free
    ensures NewBitmapTaken(v, size).free == v.free - (Elements(sects) + Elements(extSects))
    ensures (forall i :: 0 <= i < |sects| ==> 2 <= sects[i] <= v.last) && 0 !in extSects
  {
    hide FirstSectors, ExtCount;
    FirstSectorsAre(v, size);
    NewBitmapTakenIs(v, size);
    sects := FirstSectors(v, size);
    var w := WithoutSectors(v, sects);
    FirstSectorsAre(w, ExtCount(size));
    extSects := FirstSectors(w, ExtCount(size));
    forall i | 0 <= i < size ensures 2 <= sects[i] <= v.last {
      assert sects[i] in Elements(sects);
    }
    assert 0 !in Elements(extSects);
  }

  /**
    The walk along the pointers finds the pages, and they and the extension blocks are the
    volume's own; the volume has no other blocks of its own if the root has enough pointers.
  */
  ghost predicate BitmapPlaced(root: Pointers, exts: map<int, Pointers>, blocks: seq<int>, last: int, own: set<int>) {
    && PointersOK(root, exts) && Ends(exts, root.next, ExtCount(|blocks|))
    && Found(root, exts, |blocks|, last, ExtCount(|blocks|)) == Some(blocks)
    && Elements(blocks) + exts.Keys <= own
    && (own == Elements(blocks) + exts.Keys <==> |blocks| <= BM_PAGES_ROOT_SIZE)
  }

  /** What is taken for the bitmap of a new volume. */
  lemma NewBitmapOwn(v: Vol, root: Pointers, root': Pointers, exts: map<int, Pointers>, blocks: seq<int>) returns (own: set<int>)
    requires VolOK(v) && |blocks| + ExtCount(|blocks|) <= |v.free| && NewPointers(v, root, root', exts, blocks) && root.next == 0
    ensures NewBitmapTaken(v, |blocks|).free == v.free - own && own <= v.free
    ensures BitmapPlaced(root', exts, blocks, v.last, own)
  {
    hide FirstSectors, ExtCount, Found, RootWritten, ExtWritten, PageSectors, NoDuplicates, NewBitmapTaken, PointersOK, Ends,
         Elements;
    var sects, extSects := NewBitmapSectors(v, |blocks|);
    own := Elements(sects) + Elements(extSects);
    assert PointersWritten(sects, extSects, root, root', exts, blocks);
    PagesFound(sects, extSects, root, root', exts, blocks, v.last);
    PagesApart(sects);
    PagesAreSectors(sects);
  }

  lemma PagesAreSectors(sects: seq<int>)
    ensures Elements(PageSectors(sects)) <= Elements(sects)
  {
    forall x | x in PageSectors(sects) ensures x in sects {
      var b :| 0 <= b < |sects| && PageSectors(sects)[b] == x;
    }
  }

  /** The sectors that adfCreateBitmap does not mark as free, and that were not free before. */
  ghost function NotFreed(firstBlock: nat, last: nat, before: set<int>): set<int>
    requires last >= 2
  {
    SectorsFrom(2, last) - (before + CreatedFree(firstBlock, last))
  }

  /** Only the root block and the sectors `lost` are in use, and the root lists nothing. */
  ghost predicate OnlyRoot(v: Vol, lost: set<int>) {
    && VolOK(v) && IsNode(v, v.root) && NodeAt(v, v.root) == RootNode()
    && v.free == SectorsFrom(2, v.last) - {v.root} - lost
    && v.root !in lost && lost <= SectorsFrom(2, v.last)
  }

  /** The root block is written, on the first free sector. */
  method FormatRoot(vol: AdfVolume)
    requires vol.Valid() && vol.firstBlock >= 0
    requires vol.rootBlock in vol.Free() + CreatedFree(vol.firstBlock, vol.Last())
    modifies vol.disk, vol.table, vol.blocksChg
    ensures vol.Valid() && OnlyRoot(vol.V(), NotFreed(vol.firstBlock, vol.Last(), old(vol.Free())))
  {
    hide FirstSectors, FreeInOrder, SectorsFrom, AdfVolume.V, OnlyRoot, VolOK, WithoutSectors, NotFreed, CreatedFree;
    ghost var lost := NotFreed(vol.firstBlock, vol.Last(), vol.Free());
    ghost var before := vol.Free();
    Shapes(vol);
    CreateBitmap(vol);
    ghost var v := vol.V();
    Shapes(vol);
    NowFree(v, vol.firstBlock, before);
    RootIsFirst(v);
    var blkList := new int[1];
    var ok := TakeFirst(vol, blkList);
    assert blkList[..][0] == vol.rootBlock;
    var rc := WriteEntryBlock(vol, blkList[0], RootNode());
    OnlyRootIs(v, vol.V(), lost);
  }

  lemma Shapes(vol: AdfVolume)
    requires vol.Valid()
    ensures var v := vol.V(); VolOK(v) && v.root == vol.rootBlock && v.last == vol.Last() && v.free == vol.Free()
  {
  }

  lemma NowFree(v: Vol, firstBlock: nat, before: set<int>)
    requires VolOK(v) && v.free == before + CreatedFree(firstBlock, v.last)
    ensures v.free == SectorsFrom(2, v.last) - NotFreed(firstBlock, v.last, before)
    ensures NotFreed(firstBlock, v.last, before) <= SectorsFrom(2, v.last)
  {
    forall x | x in v.free ensures x in SectorsFrom(2, v.last) {
    }
  }

  lemma OnlyRootIs(v: Vol, u: Vol, lost: set<int>)
    requires VolOK(v) && v.free == SectorsFrom(2, v.last) - lost && lost <= SectorsFrom(2, v.last) && v.root in v.free
    requires u == SetNode(WithoutSectors(v, [v.root]), v.root, RootNode())
    ensures OnlyRoot(u, lost)
  {
    hide SectorsFrom;
    assert Elements([v.root]) == {v.root};
  }

  lemma OnlyRootCount(v: Vol, lost: set<int>)
    requires OnlyRoot(v, lost)
    ensures |v.free| == v.last - 2 - |lost| && VolOK(v)
  {
    assert SectorsFrom(2, v.last) == v.free + {v.root} + lost;
    assert |v.free + {v.root} + lost| == |v.free + {v.root}| + |lost|;
  }

  /**
    adfVolCreate, for a volume whose root block is free after adfCreateBitmap: when it has
    room for its bitmap, the root lists nothing, all other sectors are free but those taken
    for the bitmap, and those that were not marked as free; and the pages of the bitmap are
    found again. On a volume that begins with its device all were marked as free.
  */
  method FormatVolume(vol: AdfVolume, bitme: seq<int>, blocks: array<int>)
    returns (rc: Rc, root: Pointers, exts: map<int, Pointers>, ghost own: set<int>)
    requires vol.Valid() && vol.firstBlock >= 0 && |bitme| == BM_PAGES_EXT_SIZE
    requires vol.rootBlock in vol.Free() + CreatedFree(vol.firstBlock, vol.Last())
    modifies vol.disk, vol.table, vol.blocksChg, vol.pages, vol`bmFlag, blocks
    ensures vol.Valid()
    ensures var lost := NotFreed(vol.firstBlock, vol.Last(), old(vol.Free()));
            && (vol.firstBlock == 0 ==> lost == {})
            && (rc == RcOk <==> 1 + blocks.Length + ExtCount(blocks.Length) <= vol.Last() - 1 - |lost|)
            && (rc == RcOk ==>
                  && Formatted(vol.V(), own + lost) && own !! lost && vol.bmFlag && vol.FreeOf(vol.pages) == vol.Free()
                  && BitmapPlaced(root, exts, blocks[..], vol.Last(), own))
  {
    hide FirstSectors, ExtCount, Found, NewBitmapTaken, NewPointers, OnlyRoot, VolOK, BitmapPlaced, Formatted, AdfVolume.V, NotFreed;
    ghost var lost := NotFreed(vol.firstBlock, vol.Last(), vol.Free());
    AllFreedAtStart(vol.Last(), vol.Free());
    FormatRoot(vol);
    ghost var w := vol.V();
    Shapes(vol);
    OnlyRootCount(w, lost);
    own := {};
    var noPointers := Pointers(seq(BM_PAGES_ROOT_SIZE, _ => 0), 0);
    rc, root, exts := WriteNewBitmap(vol, noPointers, bitme, blocks);
    if rc == RcOk {
      own := NewBitmapOwn(w, noPointers, root, exts, blocks[..]);
      NewBitmapKeeps(w, blocks.Length);
      FormattedIs(w, vol.V(), own, lost);
      vol.UpdateBitmap();
    }
  }

  lemma AllFreedAtStart(last: nat, before: set<int>)
    requires last >= 2
    ensures NotFreed(0, last, before) == {}
  {
  }

  lemma NewBitmapKeeps(v: Vol, size: nat)
    requires VolOK(v)
    ensures NewBitmapTaken(v, size) == v.(free := NewBitmapTaken(v, size).free)
  {
    hide FirstSectors, ExtCount;
  }

  lemma FormattedIs(w: Vol, u: Vol, own: set<int>, lost: set<int>)
    requires OnlyRoot(w, lost) && u == w.(free := w.free - own) && own <= w.free
    ensures Formatted(u, own + lost) && own !! lost
  {
  }
}
