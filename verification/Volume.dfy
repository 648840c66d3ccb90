/**
  A mounted volume: its sectors and its allocation bitmap, both changed in place.
  The bitmap stands for the set of free sectors. Models adf_bitm.c and the block
  access of adf_vol.c.
*/
module Volume {
  import opened Bitmap
  import opened Blocks

  class AdfVolume {
    const firstBlock: int
    const lastBlock: int
    const rootBlock: int

    /** Are names compared as international ones? */
    const intl: bool

    /** The sectors. */
    const disk: array<Block>

    /** The bitmap in memory, page by page; a set bit marks a free sector. */
    const table: array2<bv32>

    /** The pages that differ from their copy on the disk. */
    const blocksChg: array<bool>

    /** The bitmap pages on the disk. */
    const pages: array2<bv32>

    /** Does the root block on the disk call the bitmap valid? */
    var bmFlag: bool

    function Last(): int {
      lastBlock - firstBlock
    }

    predicate Shape() {
      && 2 < rootBlock <= Last()
      && disk.Length == Last() + 1
      && table.Length0 == pages.Length0 == blocksChg.Length == BitmapSize(Last() - 1)
      && table.Length1 == pages.Length1 == MAP_SIZE
      && table != pages
    }

    /** What changes when sectors are marked free or used. */
    ghost function Bits(): set<object> {
      {table, blocksChg}
    }

    ghost predicate Valid()
      reads blocksChg, table, pages
    {
      && Shape()
      && forall i, j :: 0 <= i < table.Length0 && 0 <= j < MAP_SIZE && !blocksChg[i] ==> pages[i, j] == table[i, j]
    }

    /** Is sector `s` on the volume, and does it have a bit in the bitmap? */
    predicate HasBit(s: int) {
      2 <= s <= Last()
    }

    lemma BitInRange(s: int)
      requires Shape() && HasBit(s)
      ensures 0 <= Page(s) < table.Length0 && 0 <= Word(s) < MAP_SIZE && Bit(s) < 32
    {
      SectorOf(s);
      PageInRange(s, Last());
    }

    ghost predicate FreeIn(map_: array2<bv32>, s: int)
      requires Shape() && HasBit(s) && map_.Length0 == table.Length0 && map_.Length1 == MAP_SIZE
      reads map_
    {
      BitInRange(s);
      BitSet(map_[Page(s), Word(s)], Bit(s))
    }

    /** The sectors a bitmap calls free. */
    ghost function FreeOf(map_: array2<bv32>): set<int>
      requires Shape() && map_.Length0 == table.Length0 && map_.Length1 == MAP_SIZE
      reads map_
    {
      set s | 2 <= s <= Last() && FreeIn(map_, s)
    }

    ghost function Free(): set<int>
      requires Shape()
      reads table
    {
      FreeOf(table)
    }

    /** The volume as a value. */
    ghost function V(): Vol
      requires Shape()
      reads disk, table
    {
      Vol(rootBlock, Last(), disk[..], Free())
    }

    lemma VIsOK()
      requires Shape()
      ensures VolOK(V())
    {
    }

    /** A sector is free if its bit is set: pages have 4064 bits, words 32, from the least one on. */
    lemma FreeIsBitSet(s: int)
      requires Shape() && HasBit(s)
      ensures 0 <= (s - 2) / 4064 < table.Length0
      ensures s in Free() <==> BitSet(table[(s - 2) / 4064, (s - 2) / 32 % 127], (s - 2) % 32)
    {
      hide BitSet;
      BitInRange(s);
    }

    /** adfIsBlockFree */
    method IsBlockFree(nSect: int) returns (r: bool)
      requires Valid() && HasBit(nSect)
      ensures r == (nSect in Free())
    {
      BitInRange(nSect);
      r := Has(table[Page(nSect), Word(nSect)], Mask(Bit(nSect)));
    }

    /** In the word of `nSect`, its bit changes and the bits of other sectors stay. */
    static lemma OneBit(nSect: int, s: int, w: bv32)
      requires nSect >= 2 && s >= 2 && Page(s) == Page(nSect) && Word(s) == Word(nSect)
      ensures Bit(s) < 32 && Bit(nSect) < 32
      ensures BitSet(WithBits(w, Mask(Bit(nSect))), Bit(s)) <==> s == nSect || BitSet(w, Bit(s))
      ensures BitSet(WithoutBits(w, Mask(Bit(nSect))), Bit(s)) <==> s != nSect && BitSet(w, Bit(s))
    {
      SectorOf(nSect);
      SectorOf(s);
      hide BitSet, WithBits, WithoutBits, Mask;
      ChangeBit(w, Bit(nSect), Bit(s));
      if Bit(s) == Bit(nSect) {
        PlaceInjective(s, nSect);
      }
    }

    /** adfSetBlockFree */
    method SetBlockFree(nSect: int)
      requires Valid() && HasBit(nSect)
      modifies table, blocksChg
      ensures Valid()
      ensures Free() == old(Free()) + {nSect}
      ensures disk[..] == old(disk[..])
    {
      BitInRange(nSect);
      var block, index := Page(nSect), Word(nSect);
      var oldValue := table[block, index];
      table[block, index] := WithBits(oldValue, Mask(Bit(nSect)));
      blocksChg[block] := true;
      hide BitSet, WithBits, Mask, Page, Word, Bit;
      forall s | HasBit(s) ensures FreeIn(table, s) <==> s == nSect || old(FreeIn(table, s)) {
        BitInRange(s);
        if Page(s) == block && Word(s) == index {
          OneBit(nSect, s, oldValue);
        }
      }
      hide FreeIn;
      assert forall s :: s in Free() <==> s in old(Free()) + {nSect};
    }

    /** adfSetBlockUsed */
    method SetBlockUsed(nSect: int)
      requires Valid() && HasBit(nSect)
      modifies table, blocksChg
      ensures Valid()
      ensures Free() == old(Free()) - {nSect}
      ensures disk[..] == old(disk[..])
    {
      BitInRange(nSect);
      var block, index := Page(nSect), Word(nSect);
      var oldValue := table[block, index];
      table[block, index] := WithoutBits(oldValue, Mask(Bit(nSect)));
      blocksChg[block] := true;
      hide BitSet, WithoutBits, Mask, Page, Word, Bit;
      forall s | HasBit(s) ensures FreeIn(table, s) <==> s != nSect && old(FreeIn(table, s)) {
        BitInRange(s);
        if Page(s) == block && Word(s) == index {
          OneBit(nSect, s, oldValue);
        }
      }
      hide FreeIn;
      assert forall s :: s in Free() <==> s in old(Free()) - {nSect};
    }

    /** adfCountFreeBlocks */
    method CountFreeBlocks() returns (freeBlocks: nat)
      requires Valid()
      ensures freeBlocks == |Free()|
    {
      freeBlocks := 0;
      ghost var seen: set<int> := {};
      var j := 2;
      while j <= Last()
        invariant 2 <= j <= Last() + 1
        invariant forall s :: s in seen <==> s in Free() && s < j
        invariant freeBlocks == |seen|
      {
        var r := IsBlockFree(j);
        if r {
          freeBlocks := freeBlocks + 1;
          seen := seen + {j};
        }
        j := j + 1;
      }
      assert forall s :: s in Free() ==> s <= Last();
      assert seen == Free();
    }

    /** The scan of adfGetFreeBlocks: the first free sectors in circular order from the root, at most `nbSect`. */
    method ScanFree(nbSect: nat, sectList: array<int>) returns (i: nat)
      requires Valid() && nbSect <= sectList.Length
      modifies sectList
      ensures i == (if nbSect <= |ScanOrder(V())| then nbSect else |ScanOrder(V())|)
      ensures sectList[..i] == ScanOrder(V())[..i]
    {
      hide FreeInOrder, Circ;
      ghost var v := V();
      var block, diskFull := rootBlock, false;
      i := 0;
      ghost var k := 0;
      ScanStart(v.free, rootBlock, Last());
      while i < nbSect && !diskFull
        invariant 0 <= k <= Last() - 1
        invariant 0 <= i <= nbSect
        invariant i == |FreeInOrder(v.free, rootBlock, Last(), k)|
        invariant sectList[..i] == FreeInOrder(v.free, rootBlock, Last(), k)
        invariant if diskFull then k == Last() - 1 else k < Last() - 1 && block == Circ(rootBlock, Last(), k)
        decreases Last() - k
      {
        ScanStep(v.free, rootBlock, Last(), k);
        var free := IsBlockFree(block);
        if free {
          sectList[i] := block;
          i := i + 1;
        }
        if block + firstBlock == lastBlock {
          block := 2;
        } else {
          block := block + 1;
          if block == rootBlock {
            diskFull := true;
          }
        }
        k := k + 1;
      }
      ScanPrefix(v.free, rootBlock, Last(), k, Last() - 1);
    }

    /** Mark the first `n` sectors of a list as used. */
    method TakeSectors(sectList: array<int>, n: nat)
      requires Valid() && n <= sectList.Length
      requires forall j :: 0 <= j < n ==> HasBit(sectList[j])
      modifies table, blocksChg
      ensures Valid()
      ensures disk[..] == old(disk[..])
      ensures Free() == old(Free()) - Elements(sectList[..n])
    {
      var j := 0;
      while j < n
        invariant 0 <= j <= n
        invariant Valid()
        invariant disk[..] == old(disk[..])
        invariant Free() == old(Free()) - Elements(sectList[..j])
      {
        SetBlockUsed(sectList[j]);
        assert sectList[..j + 1] == sectList[..j] + [sectList[j]];
        j := j + 1;
      }
    }

    /**
      adfGetFreeBlocks: the first `nbSect` free sectors of the circular scan are taken, if
      there are that many, and none otherwise.
    */
    method GetFreeBlocks(nbSect: nat, sectList: array<int>) returns (ok: bool)
      requires Valid() && nbSect <= sectList.Length
      modifies table, blocksChg, sectList
      ensures Valid()
      ensures disk[..] == old(disk[..])
      ensures ok <==> nbSect <= |old(Free())|
      ensures ok ==> nbSect <= |ScanOrder(old(V()))| && sectList[..nbSect] == ScanOrder(old(V()))[..nbSect]
      ensures ok ==> Free() == old(Free()) - Elements(ScanOrder(old(V()))[..nbSect])
      ensures !ok ==> Free() == old(Free())
      ensures !ok ==> forall i, j :: 0 <= i < table.Length0 && 0 <= j < MAP_SIZE ==> table[i, j] == old(table[i, j])
    {
      ghost var v := V();
      ScanOrderIsFree(v);
      var i := ScanFree(nbSect, sectList);
      ok := i == nbSect;
      if ok {
        forall j | 0 <= j < nbSect ensures HasBit(sectList[j]) {
          assert sectList[..nbSect][j] in ScanOrder(v);
        }
        TakeSectors(sectList, nbSect);
      }
    }

    /** adfGet1FreeBlock */
    method Get1FreeBlock() returns (s: int)
      requires Valid()
      modifies table, blocksChg
      ensures Valid()
      ensures VolOK(old(V())) && s == FirstFree(old(V()))
      ensures V() == if s == -1 then old(V()) else Take(old(V()), s)
    {
      VIsOK();
      var block := new int[1];
      ScanOrderIsFree(V());
      var ok := GetFreeBlocks(1, block);
      if !ok {
        s := -1;
      } else {
        s := block[0];
        assert block[..1] == [s];
      }
    }

    /** adfUpdateBitmap: the changed pages are written, between two writes of the root block. */
    method UpdateBitmap()
      requires Valid()
      modifies `bmFlag, pages, blocksChg
      ensures Valid() && bmFlag
      ensures V() == old(V())
      ensures FreeOf(pages) == Free()
      ensures forall i :: 0 <= i < blocksChg.Length ==> !blocksChg[i]
    {
      bmFlag := false;
      var i := 0;
      while i < blocksChg.Length
        invariant 0 <= i <= blocksChg.Length
        invariant Valid() && !bmFlag
        invariant forall k :: 0 <= k < i ==> !blocksChg[k]
      {
        if blocksChg[i] {
          WritePage(i);
          blocksChg[i] := false;
        }
        i := i + 1;
      }
      bmFlag := true;
      forall s | HasBit(s) ensures FreeIn(pages, s) <==> FreeIn(table, s) {
        BitInRange(s);
      }
    }

    /** adfWriteBitmapBlock for page `i` */
    method WritePage(i: int)
      requires Shape() && 0 <= i < pages.Length0
      modifies pages
      ensures forall j :: 0 <= j < MAP_SIZE ==> pages[i, j] == table[i, j]
      ensures forall k, j :: 0 <= k < pages.Length0 && k != i && 0 <= j < MAP_SIZE ==> pages[k, j] == old(pages[k, j])
    {
      var j := 0;
      while j < MAP_SIZE
        invariant 0 <= j <= MAP_SIZE
        invariant forall m :: 0 <= m < j ==> pages[i, m] == table[i, m]
        invariant forall k, m :: 0 <= k < pages.Length0 && k != i && 0 <= m < MAP_SIZE ==> pages[k, m] == old(pages[k, m])
      {
        pages[i, j] := table[i, j];
        j := j + 1;
      }
    }

    /** adfReadBitmap: the pages on the disk become the bitmap in memory. */
    method ReadBitmap()
      requires Shape()
      modifies table, blocksChg
      ensures Valid()
      ensures Free() == FreeOf(pages)
      ensures disk[..] == old(disk[..])
    {
      forall i | 0 <= i < blocksChg.Length {
        blocksChg[i] := false;
      }
      forall i, j | 0 <= i < table.Length0 && 0 <= j < MAP_SIZE {
        table[i, j] := pages[i, j];
      }
      forall s | HasBit(s) ensures FreeIn(pages, s) <==> FreeIn(table, s) {
        BitInRange(s);
      }
    }

    /** adfVolWriteBlock */
    method WriteBlock(s: int, b: Block) returns (ok: bool)
      requires Valid()
      modifies disk
      ensures Valid()
      ensures ok == OnDisk(old(V()), s)
      ensures V() == Store(old(V()), s, b)
    {
      ok := 0 <= s <= Last();
      if ok {
        disk[s] := b;
      }
    }

    /** Reading a header, extension, directory or root block. */
    method ReadNodeBlock(s: int) returns (r: Option<Node>)
      requires Valid()
      ensures r == ReadNode(V(), s)
    {
      if 0 <= s <= Last() && disk[s].Meta? {
        r := Some(disk[s].node);
      } else {
        r := None;
      }
    }

    /** adfReadDataBlock */
    method ReadDataBlock(s: int) returns (r: Option<Buf>)
      requires Valid()
      ensures r == ReadData(V(), s)
    {
      if s >= 1 && s <= Last() && disk[s].Data? {
        r := Some(disk[s].bytes);
      } else {
        r := None;
      }
    }
  }

  /** What the scan finds first it finds first when it goes on. */
  lemma ScanStart(free: set<int>, root: int, last: int)
    requires 2 < root <= last
    ensures FreeInOrder(free, root, last, 0) == []
    ensures Circ(root, last, 0) == root
  {
  }

  /** One sector of the circular scan, and the one behind it. */
  lemma ScanStep(free: set<int>, root: int, last: int, k: nat)
    requires 2 < root <= last && k < last - 1
    ensures var s := Circ(root, last, k);
            && 2 <= s <= last
            && FreeInOrder(free, root, last, k + 1) == FreeInOrder(free, root, last, k) + (if s in free then [s] else [])
            && Circ(root, last, k + 1) == (if s == last then 2 else s + 1)
            && (Circ(root, last, k + 1) == root <==> k + 1 == last - 1)
  {
  }

  lemma {:induction false} ScanPrefix(free: set<int>, root: int, last: int, k: nat, m: nat)
    requires k <= m
    ensures FreeInOrder(free, root, last, k) <= FreeInOrder(free, root, last, m)
    decreases m - k
  {
    if k < m {
      ScanPrefix(free, root, last, k, m - 1);
    }
  }
}
