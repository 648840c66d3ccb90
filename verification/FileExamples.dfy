/**
  Files in which the code falls short of what one would expect of it: a state for each of
  the failing sides of the exact conditions on open files.
*/
module FileExamples {
  import opened FileUtil
  import opened Blocks
  import opened FileSpec
  import opened FileInv
  import opened FileSteps
  import opened FileGrow
  import opened FileWrite
  import opened FileRead
  import opened TruncateSpec
  import opened FileBlocks
  import opened FileTruncate
  import opened FileShrink
  import opened FileLimits

  /* ---- a file of `n` blocks of zeros on sectors 6 on, with its header on sector 5 ---- */

  const HEADER := 5
  const LAST := 100

  function SampleHdr(n: nat): Node {
    Node(T_HEADER, HEADER, n, if n > 0 then HEADER + 1 else 0, seq(72, j => if 71 - j < n then HEADER + 1 + (71 - j) else 0),
         FFS_BLOCK * n, [65], 0, 3, 0, ST_FILE)
  }

  function SampleSectors(n: nat): seq<int> {
    seq(n + 1, i => HEADER + i)
  }

  ghost function SampleLayout(n: nat): Layout {
    Layout(HEADER, SampleSectors(n)[1..], [],
           map x | x in SampleSectors(n) :: if x == HEADER then IsHeader else IsData(x - HEADER - 1))
  }

  lemma SampleSector(n: nat, x: int)
    ensures x in SampleSectors(n) <==> HEADER <= x <= HEADER + n
  {
    if HEADER <= x <= HEADER + n {
      assert SampleSectors(n)[x - HEADER] == x;
    }
  }

  function SampleVol(n: nat, free: set<int>): Vol {
    Vol(3, LAST, seq(LAST + 1, x => if x == HEADER then Meta(SampleHdr(n)) else Data(ZeroBuf())), free)
  }

  lemma SampleOwn(n: nat)
    ensures OwnOK(SampleLayout(n))
  {
    var L := SampleLayout(n);
    forall i | 0 <= i < n ensures L.data[i] == HEADER + 1 + i && L.data[i] in L.own && L.own[L.data[i]] == IsData(i) {
      SampleSector(n, HEADER + 1 + i);
    }
    forall s | s in L.own
      ensures match L.own[s]
              case IsHeader => s == L.header
              case IsData(i) => i < n && L.data[i] == s
              case IsExt(j) => false
    {
      SampleSector(n, s);
    }
    SampleSector(n, HEADER);
  }

  lemma SampleHdrOK(n: nat)
    requires n <= MAX_DATABLK
    ensures HdrOK(SampleHdr(n), SampleLayout(n))
  {
    var hdr, L := SampleHdr(n), SampleLayout(n);
    forall k | 0 <= k < 72 ensures Slot(hdr, k) == PtrOrZero(L.data, k) {
      assert hdr.slots[71 - k] == if k < n then HEADER + 1 + k else 0;
      if k < n {
        assert L.data[k] == SampleSectors(n)[1 + k];
      }
    }
  }

  lemma SampleLists(n: nat)
    ensures var L := SampleLayout(n);
            && |L.data| == n && L.exts == [] && L.header == HEADER
            && forall i :: 0 <= i < n ==> L.data[i] == HEADER + 1 + i
  {
    forall i | 0 <= i < n ensures SampleLayout(n).data[i] == HEADER + 1 + i {
      assert SampleLayout(n).data[i] == SampleSectors(n)[1 + i];
    }
  }

  lemma SampleDisk(n: nat, free: set<int>)
    requires n <= MAX_DATABLK
    ensures var v := SampleVol(n, free);
            && |v.disk| == LAST + 1 && v.last == LAST && v.disk[HEADER] == Meta(SampleHdr(n))
            && forall x :: 0 <= x <= LAST && x != HEADER ==> v.disk[x] == Data(ZeroBuf())
  {
    hide SampleHdr;
  }

  lemma SampleNumbers(n: nat)
    requires n <= MAX_DATABLK
    ensures SizeOK(FFS_BLOCK * n, n) && Datablocks2Extblocks(n) == 0
  {
  }

  /** The file is on the disk, whatever other sectors are free. */
  lemma SampleStored(n: nat, free: set<int>)
    requires n <= MAX_DATABLK && forall x :: x in free ==> HEADER + n < x <= LAST
    ensures Stored(SampleVol(n, free), SampleHdr(n), SampleLayout(n))
  {
    hide OwnOK, HdrOK, Placed, SampleHdr, SampleVol, SampleLayout, SizeOK, Datablocks2Extblocks, VolOK, SampleSectors;
    var v, hdr, L := SampleVol(n, free), SampleHdr(n), SampleLayout(n);
    SampleOwn(n);
    SampleHdrOK(n);
    SamplePlaced(n, free);
    SampleSize(n);
    SampleLists(n);
    SampleDisk(n, free);
    SampleNumbers(n);
  }

  lemma SampleSize(n: nat)
    ensures SampleHdr(n).byteSize == FFS_BLOCK * n
  {
  }

  lemma SamplePlaced(n: nat, free: set<int>)
    requires n <= MAX_DATABLK && forall x :: x in free ==> HEADER + n < x <= LAST
    ensures VolOK(SampleVol(n, free)) && Placed(SampleVol(n, free), SampleLayout(n))
  {
    forall s | s in SampleLayout(n).own ensures 2 <= s <= LAST && s !in free {
      SampleSector(n, s);
    }
  }

  /** The handle with data block `i` cached, which holds the byte `b` throughout. */
  function SampleHandle(n: nat, i: nat, b: byte, inBlock: nat, changed: bool): Handle {
    Handle(SampleHdr(n), seq(FFS_BLOCK, _ => b), None, i + 1, HEADER + 1 + i, FFS_BLOCK * i + inBlock, inBlock, 0, true, true, changed)
  }

  lemma SampleInv(n: nat, free: set<int>, i: nat, b: byte, inBlock: nat, changed: bool)
    requires i < n <= MAX_DATABLK && forall x :: x in free ==> HEADER + n < x <= LAST
    requires inBlock <= FFS_BLOCK && (b != 0 ==> changed)
    ensures Inv(FS(SampleVol(n, free), SampleHandle(n, i, b, inBlock, changed)), SampleLayout(n))
  {
    hide SampleHdr, SampleVol, SampleLayout, SampleSectors, Stored, Base, Ahead;
    var s, L := FS(SampleVol(n, free), SampleHandle(n, i, b, inBlock, changed)), SampleLayout(n);
    SampleStored(n, free);
    StoredIsAhead(s, L);
    SampleLists(n);
    SampleDisk(n, free);
    SampleSize(n);
    CursorFits(n, i, inBlock);
    if !changed {
      assert s.h.data == ZeroBuf();
    }
  }

  lemma CursorFits(n: nat, i: nat, inBlock: nat)
    requires i < n && inBlock <= FFS_BLOCK
    ensures FFS_BLOCK * i + inBlock <= FFS_BLOCK * n
  {
  }

  lemma StoredIsAhead(s: FS, L: Layout)
    requires Stored(s.v, s.h.hdr, L) && s.h.ext.None?
    ensures Ahead(s, L)
  {
  }

  /* ---- each failing side ---- */

  /** A read of one byte behind the first block, which is changed, loses that block. */
  lemma ReadDropsBlock()
    ensures var s, L := FS(SampleVol(2, {}), SampleHandle(2, 0, 1, FFS_BLOCK, true)), SampleLayout(2);
            Inv(s, L) && Content(Read(s, 1).s, L) != Content(s, L)
  {
    var s, L := FS(SampleVol(2, {}), SampleHandle(2, 0, 1, FFS_BLOCK, true)), SampleLayout(2);
    SampleInv(2, {}, 0, 1, FFS_BLOCK, true);
    hide Inv, Read, Content;
    ReadKeepsContent(s, L, 1);
    BlockDiffers(2, {}, 0);
  }

  lemma BlockDiffers(n: nat, free: set<int>, i: nat)
    requires HEADER + 1 + i <= LAST
    ensures SampleVol(n, free).disk[HEADER + 1 + i] != Data(seq(FFS_BLOCK, _ => 1))
  {
    assert ZeroBuf()[0] != seq(FFS_BLOCK, _ => 1)[0];
  }

  /** On a full volume one more byte is refused, and a seek to the start loses the last block. */
  lemma ShortWriteLoses()
    ensures var s, L := FS(SampleVol(2, {}), SampleHandle(2, 1, 1, FFS_BLOCK, true)), SampleLayout(2);
            && Inv(s, L) && VolOK(s.v)
            && Write(s, [7]).count == 0
            && !Survives(Seek(Write(s, [7]).s, 0).s, s, L)
  {
    var s, L := FS(SampleVol(2, {}), SampleHandle(2, 1, 1, FFS_BLOCK, true)), SampleLayout(2);
    SampleInv(2, {}, 1, 1, FFS_BLOCK, true);
    hide Inv, Survives, Seek;
    assert AppendCost(2) == 1;
    NothingWritten(s, L);
    RefusedThenSeek(s, L, 0);
    BlockDiffers(2, {}, 1);
  }

  /** At a full end without room the write loop writes nothing, and the block counts as unchanged. */
  lemma NothingWritten(s: FS, L: Layout)
    requires Inv(s, L) && NeedsBlock(s) && s.h.modeWrite && |s.v.free| < AppendCost(|L.data|)
    ensures VolOK(s.v) && Write(s, [7]) == FileSpec.Written(Clean(CreateNextBlock(s).s), 0) && AtFullEnd(s, L)
  {
    hide Inv, CreateNextBlock;
    var buf: seq<byte> := [7];
    NoRoomNow(s, L);
    assert CutShort(s, buf, WriteLoop(s, buf)) && WriteLoop(s, buf).count == 0;
    assert buf[..0] == [] && WriteLoop(s, []) == FileSpec.Written(s, 0);
  }

  /** With 72 blocks and one free sector, that sector is lost, and no layout fits the handle. */
  lemma RefusedAppendDangles()
    ensures var s, L := FS(SampleVol(72, {90}), SampleHandle(72, 71, 0, FFS_BLOCK, false)), SampleLayout(72);
            && Inv(s, L) && VolOK(s.v)
            && CreateNextBlock(s).rc == RcVolFull && CreateNextBlock(s).s.v.free == {}
            && !exists L' :: Inv(CreateNextBlock(s).s, L')
  {
    var s, L := FS(SampleVol(72, {90}), SampleHandle(72, 71, 0, FFS_BLOCK, false)), SampleLayout(72);
    SampleInv(72, {90}, 71, 0, FFS_BLOCK, false);
    hide Inv, CreateNextBlock;
    assert AppendCost(72) == 2;
    RefusedAppend(s, L);
    RefusedExact(s, L);
  }

  /** A file of two blocks cut to one, from its start: no layout fits the handle. */
  lemma CutLeavesFreedBlock()
    ensures var s, L := FS(SampleVol(2, {}), SampleHandle(2, 0, 0, 0, false)), SampleLayout(2);
            && Inv(s, L)
            && Shrink(s, FFS_BLOCK).rc == RcOk && !exists L' :: Inv(Shrink(s, FFS_BLOCK).s, L')
  {
    var s, L := FS(SampleVol(2, {}), SampleHandle(2, 0, 0, 0, false)), SampleLayout(2);
    SampleInv(2, {}, 0, 0, 0, false);
    SampleStored(2, {});
    StoredChain(s.v, s.h.hdr, L);
    SampleSize(2);
    hide Inv, Shrink, Stored, ChainOnDisk, ListsRemoval, SampleLayout, SampleVol, SampleHdr;
    BlocksToRemoveExact(s.v, s.h.hdr, L, FFS_BLOCK);
    ShrinkIsCut(s, L, FFS_BLOCK);
    ShrinkExact(s, L, FFS_BLOCK);
  }

  /* ---- an extension block that is not on the disk yet ---- */

  /** All sectors but that of the header hold data. */
  predicate OnlyData(v: Vol) {
    forall x :: 0 <= x < |v.disk| && x != HEADER ==> v.disk[x].Data?
  }

  lemma AppendKeepsData(s: FS)
    requires VolOK(s.v) && s.h.nDataBlock == MAX_DATABLK && OnlyData(s.v)
    ensures OnlyData(CreateNextBlock(s).s.v)
  {
    hide FirstFree, FreeInOrder, NewExt;
    if FirstFree(s.v) != -1 {
      LinkExtVolOK(s, FirstFree(s.v));
    }
  }

  /** A byte that is written behind a full last block. */
  lemma WriteKeepsData(s: FS)
    requires VolOK(s.v) && s.h.nDataBlock == MAX_DATABLK && OnlyData(s.v)
    requires s.h.pos == s.h.hdr.byteSize && s.h.pos % FFS_BLOCK == 0
    ensures OnlyData(Write(s, [7]).s.v)
  {
    AppendKeepsData(s);
    hide CreateNextBlock, OnlyData, VolOK;
    PrepareWriteVolOK(s);
    var buf: seq<byte> := [7];
    var o := PrepareWrite(s);
    assert OnlyData(o.s.v);
    if o.rc == RcOk && o.s.h.posInDataBlk < FFS_BLOCK {
      assert Min(|buf|, FFS_BLOCK - o.s.h.posInDataBlk) == 1 && buf[..1] == buf && buf[1..] == [];
      assert CopyIn(o.s, buf).v == o.s.v;
      assert WriteLoop(CopyIn(o.s, buf), []) == FileSpec.Written(CopyIn(o.s, buf), 0);
    }
  }

  lemma SizeOf73()
    ensures Size2Datablocks(FFS_BLOCK * 72 + 1, FFS_BLOCK) == 73 && Datablocks2Extblocks(73) == 1
    ensures Size2Datablocks(1, FFS_BLOCK) == 1 && Size2Blocks(FFS_BLOCK * 72 + 1, FFS_BLOCK) == BlocksOf(72) + 2
  {
  }

  /** A byte written behind 72 full blocks, with room for it. */
  lemma ByteWritten(s: FS, L: Layout) returns (L': Layout)
    requires Inv(s, L) && s.h.modeWrite && |s.v.free| == 2 && OnlyData(s.v) && L.header == HEADER
    requires s.h.pos == s.h.hdr.byteSize == FFS_BLOCK * 72 && s.h.nDataBlock == MAX_DATABLK
    ensures VolOK(s.v)
    ensures var t := Write(s, [7]).s;
            Inv(t, L') && OnlyData(t.v) && L'.header == HEADER && t.h.hdr.byteSize == FFS_BLOCK * 72 + 1
  {
    hide Inv, Write, Content, OnlyData, VolOK, Extends;
    InvVolOKAtAny(s, L);
    WriteKeepsData(s);
    SizeOf73();
    SizeBlocks(s, L);
    RoomForByte(s, L);
    L' := WriteRefines(s, L, [7]);
    ContentLength(s, L);
    ContentLength(Write(s, [7]).s, L');
    LongerByOne(Content(s, L));
    SameHeader(s, L, Write(s, [7]).s, L');
  }

  lemma RoomForByte(s: FS, L: Layout)
    requires |s.v.free| == 2 && |L.data| == 72
    ensures RoomFor(s, L, FFS_BLOCK * 72 + 1)
  {
  }

  lemma LongerByOne(c: seq<byte>)
    ensures |Splice(c, |c|, [7])| == |c| + 1
  {
  }

  lemma SameHeader(s: FS, L: Layout, t: FS, L': Layout)
    requires Extends(s, L, t, L')
    ensures L'.header == L.header
  {
  }

  /**
    To a file of 72 full blocks a byte is added, and then it is cut to one byte: this is
    refused, for its new extension block is not on the disk yet.
  */
  lemma CutMissesNewExt()
    ensures var s, L := FS(SampleVol(72, {90, 91}), SampleHandle(72, 71, 0, FFS_BLOCK, false)), SampleLayout(72);
            && Inv(s, L) && VolOK(s.v)
            && var t := Write(s, [7]).s;
               && (exists L' :: Inv(t, L') && !ListsRemoval(t.v, t.h.hdr, L', 1))
               && t.h.hdr.byteSize == FFS_BLOCK * 72 + 1 && Shrink(t, 1) == Outcome(t, RcError)
  {
    hide Inv, Write, ListsRemoval, Shrink, SampleHdr, SampleLayout, VolOK, OnlyData, SampleVol, SampleHandle;
    FullSample();
    var s, L := FS(SampleVol(72, {90, 91}), SampleHandle(72, 71, 0, FFS_BLOCK, false)), SampleLayout(72);
    var L' := ByteWritten(s, L);
    MissesNewExt(Write(s, [7]).s, L');
  }

  /** The sample file of 72 blocks, with two free sectors, stands at its end. */
  lemma FullSample()
    ensures var s, L := FS(SampleVol(72, {90, 91}), SampleHandle(72, 71, 0, FFS_BLOCK, false)), SampleLayout(72);
            && Inv(s, L) && s.h.modeWrite && |s.v.free| == 2 && OnlyData(s.v) && L.header == HEADER
            && s.h.pos == s.h.hdr.byteSize == FFS_BLOCK * 72 && s.h.nDataBlock == MAX_DATABLK
  {
    hide Inv, SampleHdr, SampleLayout, OnlyData;
    SampleInv(72, {90, 91}, 71, 0, FFS_BLOCK, false);
    SampleOnlyData();
    SampleLists(72);
    SampleSize(72);
    assert |{90, 91}| == 2;
  }

  lemma SampleOnlyData()
    ensures OnlyData(SampleVol(72, {90, 91}))
  {
    SampleDisk(72, {90, 91});
  }

  lemma InvVolOKAtAny(s: FS, L: Layout)
    requires Inv(s, L)
    ensures VolOK(s.v)
  {
  }

  /** The walk cannot read the extension block. */
  lemma MissesNewExt(t: FS, L: Layout)
    requires Inv(t, L) && OnlyData(t.v) && L.header == HEADER && t.h.hdr.byteSize == FFS_BLOCK * 72 + 1
    ensures !ListsRemoval(t.v, t.h.hdr, L, 1) && Shrink(t, 1) == Outcome(t, RcError)
  {
    InvChain(t, L);
    SizesShrink(t.v, t.h.hdr, L, 1);
    SizeOf73();
    RemovalExact(t, L, 1);
    ExtKeys(t.v, t.h.hdr, L, 0);
    assert L.own[L.exts[0]] == IsExt(0) && L.own[HEADER] == IsHeader;
    ReadIsMeta(t.v, L.exts[0]);
    assert t.h.hdr.extension == L.exts[0];
    NoneWithoutExt(t.v, t.h.hdr);
    hide Inv, ListsRemoval;
    assert !ExtBeyond(t.v, L, 0, 1);
  }

  lemma NoneWithoutExt(v: Vol, hdr: Node)
    requires hdr.byteSize == FFS_BLOCK * 72 + 1 && hdr.extension != 0 && ReadNode(v, hdr.extension) == None
    ensures BlocksToRemove(v, hdr, 1) == None
  {
    SizeOf73();
    hide Size2Datablocks, SlotRange;
    assert RemoveExts(v, hdr.extension, 73, 1, 0) == None;
  }

  /* ---- a damaged file ---- */

  /** An extension block that says it lists 72 data blocks, and is the last one. */
  function FullExt(): Node {
    Node(T_LIST, 90, 72, 0, NoSlots(), 0, [], 0, HEADER, 0, ST_FILE)
  }

  /** The header of a file of 73 blocks, whose extension block is at sector 90. */
  function LongHdr(): Node {
    Node(T_HEADER, HEADER, 72, 6, NoSlots(), FFS_BLOCK * 72 + 1, [65], 0, 3, 90, ST_FILE)
  }

  /** The extension block lists 72 blocks where the size leaves room for one. */
  lemma DamagedExceeds(v: Vol)
    requires ReadNode(v, 90) == Some(FullExt())
    ensures !BlocksFit(v, LongHdr()) && GetFileBlocks(v, LongHdr()) == None
  {
    assert RealSize(FFS_BLOCK * 72 + 1, FFS_BLOCK) == RealSizeResult(75, 73, 1);
    hide RealSize, ReadNode;
    if GetFileBlocks(v, LongHdr()).Some? {
      FoundBlocksFit(v, LongHdr());
    }
  }
}
