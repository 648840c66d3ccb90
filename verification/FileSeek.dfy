/** Seeking reaches the position asked for on every path, and restores the whole invariant. */
module FileSeek {
  import opened FileUtil
  import opened Blocks
  import opened FileSpec
  import opened FileInv
  import opened FileSteps

  /** A handle that stands at `pos` of an unchanged file, all of which is on the disk. */
  ghost predicate Arrived(s: FS, o: Outcome, L: Layout, pos: nat) {
    && o.rc == RcOk
    && Inv(o.s, L)
    && o.s.v == s.v
    && o.s.h.pos == pos
    && !o.s.h.changed
    && o.s.h.hdr == s.h.hdr && o.s.h.modeRead == s.h.modeRead && o.s.h.modeWrite == s.h.modeWrite
    && Content(o.s, L) == DiskContent(s.v, L, s.h.hdr.byteSize)
  }

  lemma SeekStartStep(s: FS, L: Layout)
    requires AtRest(s, L) && !s.h.changed
    ensures Arrived(s, SeekStart(s), L, 0) && SeekStart(s).s.h.posInDataBlk == 0
  {
    var s1 := FS(s.v, Rewound(s.h));
    if |L.data| == 0 {
      Arrive(s1, L);
    } else {
      ReadNextStep(s1, L);
      Arrive(ReadNextBlock(s1).s, L);
    }
  }

  /** Following `k` links from extension block `j` of a stored file reaches block `j + k`. */
  lemma {:induction false} ExtChainStep(v: Vol, hdr: Node, L: Layout, j: nat, k: nat)
    requires ChainOnDisk(v, hdr, L) && j + k < |L.exts|
    ensures ExtOnDisk(v, L, j + k)
    ensures ExtChain(v, L.exts[j], k) == Some(v.disk[L.exts[j + k]].node)
    decreases k
  {
    assert ExtOnDisk(v, L, j);
    assert L.own[L.exts[j]] == IsExt(j);
    if k > 0 {
      ExtChainStep(v, hdr, L, j + 1, k - 1);
    }
  }

  lemma StoredSize(v: Vol, hdr: Node, L: Layout)
    requires Base(v, hdr, L)
    ensures Size2Datablocks(hdr.byteSize, FFS_BLOCK) == |L.data|
    ensures Size2Extblocks(hdr.byteSize, FFS_BLOCK) == |L.exts|
  {
    var n := |L.data|;
    if n > 0 {
      Size2DatablocksLeast(hdr.byteSize, FFS_BLOCK, n);
      Size2DatablocksLeast(hdr.byteSize, FFS_BLOCK, n - 1);
    }
  }

  lemma ReadExtBlockNStep(v: Vol, hdr: Node, L: Layout, e: nat)
    requires ChainOnDisk(v, hdr, L) && e < |L.exts|
    ensures ExtOnDisk(v, L, e)
    ensures ReadExtBlockN(v, hdr, e) == Some(v.disk[L.exts[e]].node)
  {
    StoredSize(v, hdr, L);
    ExtChainStep(v, hdr, L, 0, e);
  }

  lemma LoadAtStep(s: FS, L: Layout, i: nat)
    requires AtRest(s, L) && i < |L.data|
    ensures LoadAt(s, L.data[i]) ==
            Outcome(FS(s.v, s.h.(curDataPtr := L.data[i], data := DiskBlock(s.v, L, i), nDataBlock := s.h.nDataBlock + 1)), RcOk)
    ensures s.v.disk[L.data[i]] == Data(DiskBlock(s.v, L, i))
  {
    assert DataOnDisk(s.v, L, i);
    assert L.data[i] in L.own;
  }

  lemma PosInBlock(pos: nat)
    ensures var p := Pos2DataBlock(pos, FFS_BLOCK);
            && p.curDataN == pos / FFS_BLOCK
            && pos == FFS_BLOCK * p.curDataN + p.posInDataBlk && p.posInDataBlk < FFS_BLOCK
            && (p.curDataN < MAX_DATABLK ==> p.extBlock == -1)
            && (p.curDataN >= MAX_DATABLK ==>
                  p.extBlock == p.curDataN / MAX_DATABLK - 1 && p.posInExtBlk == p.curDataN % MAX_DATABLK)
  {
    Pos2DataBlockExact(pos, FFS_BLOCK);
  }

  lemma SeekInsideHdr(s: FS, L: Layout)
    requires AtRest(s, L) && !s.h.changed && s.h.pos < s.h.hdr.byteSize
    requires s.h.pos / FFS_BLOCK < MAX_DATABLK
    ensures Arrived(s, SeekInside(s), L, s.h.pos) && SeekInside(s).s.h.posInDataBlk < FFS_BLOCK
  {
    hide Pos2DataBlock;
    PosInBlock(s.h.pos);
    var p := Pos2DataBlock(s.h.pos, FFS_BLOCK);
    var i := p.curDataN;
    var s1 := FS(s.v, s.h.(posInExtBlk := p.posInExtBlk, posInDataBlk := p.posInDataBlk, nDataBlock := i));
    assert Slot(s.h.hdr, i) == L.data[i];
    LoadAtStep(s1, L, i);
    Arrive(LoadAt(s1, L.data[i]).s, L);
  }

  /** What the seek through an extension block loads. */
  lemma SeekInsideLoads(s: FS, x: Node)
    requires var p := Pos2DataBlock(s.h.pos, FFS_BLOCK);
             p.extBlock != -1 && ReadExtBlockN(s.v, s.h.hdr, p.extBlock) == Some(x)
    ensures var p := Pos2DataBlock(s.h.pos, FFS_BLOCK);
            SeekInside(s) == LoadAt(FS(s.v, s.h.(posInExtBlk := p.posInExtBlk + 1, posInDataBlk := p.posInDataBlk,
                                                 nDataBlock := p.curDataN, ext := Some(x))),
                                    Slot(x, p.posInExtBlk))
  {
    hide Pos2DataBlock, ReadExtBlockN, Slot, LoadAt;
  }

  lemma WithExtAtRest(s: FS, L: Layout, e: nat, k: nat, inBlock: nat, i: nat)
    requires AtRest(s, L) && !s.h.changed && e < |L.exts| && s.h.pos < s.h.hdr.byteSize
    requires i == MAX_DATABLK * (e + 1) + k && k < MAX_DATABLK && i < |L.data|
    ensures L.own[L.exts[e]] == IsExt(e)
    ensures OnDisk(s.v, L.exts[e]) && s.v.disk[L.exts[e]].Meta?
    ensures var x := s.v.disk[L.exts[e]].node;
            && Slot(x, k) == L.data[i]
            && AtRest(FS(s.v, s.h.(posInExtBlk := k + 1, posInDataBlk := inBlock, nDataBlock := i, ext := Some(x))), L)
  {
    hide Content, DiskContent, Slot;
    assert L.own[L.exts[e]] == IsExt(e);
    assert ExtOnDisk(s.v, L, e);
  }

  lemma SeekInsideExt(s: FS, L: Layout)
    requires AtRest(s, L) && !s.h.changed && s.h.pos < s.h.hdr.byteSize
    requires s.h.pos / FFS_BLOCK >= MAX_DATABLK
    ensures Arrived(s, SeekInside(s), L, s.h.pos) && SeekInside(s).s.h.posInDataBlk < FFS_BLOCK
  {
    hide Pos2DataBlock, ReadExtBlockN, Content, DiskContent, Slot, SeekInside, LoadAt;
    PosInBlock(s.h.pos);
    var p := Pos2DataBlock(s.h.pos, FFS_BLOCK);
    var i, e, k := p.curDataN, p.extBlock, p.posInExtBlk;
    SlotOfExt(i, e, k);
    assert e < |L.exts|;
    ReadExtBlockNStep(s.v, s.h.hdr, L, e);
    WithExtAtRest(s, L, e, k, p.posInDataBlk, i);
    var x := s.v.disk[L.exts[e]].node;
    SeekInsideLoads(s, x);
    var s1 := FS(s.v, s.h.(posInExtBlk := k + 1, posInDataBlk := p.posInDataBlk, nDataBlock := i, ext := Some(x)));
    LoadAtStep(s1, L, i);
    Arrive(LoadAt(s1, L.data[i]).s, L);
  }

  lemma SeekInsideStep(s: FS, L: Layout)
    requires AtRest(s, L) && !s.h.changed && s.h.pos < s.h.hdr.byteSize
    ensures Arrived(s, SeekInside(s), L, s.h.pos) && SeekInside(s).s.h.posInDataBlk < FFS_BLOCK
  {
    if s.h.pos / FFS_BLOCK < MAX_DATABLK {
      SeekInsideHdr(s, L);
    } else {
      SeekInsideExt(s, L);
    }
  }

  function WithPos(s: FS, pos: nat): FS {
    FS(s.v, s.h.(pos := pos))
  }

  /** What a seek inside the file does once the cached block has been written back. */
  lemma SeekBeforeEnd(s: FS, L: Layout, pos: nat)
    requires AtRest(s, L) && !s.h.changed && pos < s.h.hdr.byteSize
    ensures var o := if pos == 0 then SeekStart(s) else SeekExt(s, pos);
            Arrived(s, o, L, pos) && o.s.h.posInDataBlk < FFS_BLOCK
  {
    if pos == 0 {
      SeekStartStep(s, L);
    } else {
      assert AtRest(WithPos(s, pos), L);
      SeekInsideStep(WithPos(s, pos), L);
      assert SeekExt(s, pos) == SeekInside(WithPos(s, pos));
    }
  }

  lemma SeekLastSame(s: FS, L: Layout)
    requires Inv(s, L) && !s.h.changed && s.h.hdr.byteSize > 0
    requires s.h.nDataBlock - 1 == (s.h.hdr.byteSize - 1) / FFS_BLOCK
    ensures var size := s.h.hdr.byteSize;
            var o := Seek(WithPos(s, size), size - 1);
            Arrived(s, o, L, size - 1) && o.s.h.posInDataBlk < FFS_BLOCK
  {
    var size := s.h.hdr.byteSize;
    var t := FS(s.v, s.h.(pos := size - 1, posInDataBlk := (size - 1) % FFS_BLOCK));
    Arrive(t, L);
    assert Seek(WithPos(s, size), size - 1) == Outcome(t, RcOk);
  }

  lemma OpenFacts(s: FS, L: Layout)
    requires Inv(s, L) && !s.h.changed
    ensures AtRest(s, L)
    ensures s.h.hdr.byteSize > 0 ==> s.h.nDataBlock != 0
    ensures forall pos :: AtRest(WithPos(s, pos), L)
  {
  }

  /** The last byte's block is loaded before the position is set to the end. */
  lemma SeekLastByte(s: FS, L: Layout)
    requires Inv(s, L) && !s.h.changed && s.h.hdr.byteSize > 0
    ensures var size := s.h.hdr.byteSize;
            var o := Seek(WithPos(s, size), size - 1);
            Arrived(s, o, L, size - 1) && o.s.h.posInDataBlk < FFS_BLOCK
  {
    hide Inv, AtRest, Seek, SeekStart, SeekExt, FlushIfChanged, Content, DiskContent;
    OpenFacts(s, L);
    var size := s.h.hdr.byteSize;
    if s.h.nDataBlock - 1 == (size - 1) / FFS_BLOCK {
      SeekLastSame(s, L);
    } else {
      var s2 := WithPos(s, size);
      SeekBeforeEnd(s2, L, size - 1);
      SeekUnfolds(s2, size - 1);
    }
  }

  lemma SeekUnfolds(s: FS, pos: nat)
    requires s.h.pos != pos && s.h.nDataBlock != 0 && s.h.nDataBlock - 1 != pos / FFS_BLOCK
    ensures Seek(s, pos) == if pos == 0 then SeekStart(FlushIfChanged(s)) else SeekExt(FlushIfChanged(s), pos)
    ensures !s.h.changed ==> FlushIfChanged(s) == s
  {
    hide SeekStart, SeekExt;
  }

  lemma ArriveLoaded(s: FS, t: FS, L: Layout)
    requires Inv(s, L) && !s.h.changed && t.v == s.v
    requires t.h == s.h.(pos := t.h.pos, posInDataBlk := t.h.posInDataBlk) && CursorOK(t.h, L)
    ensures Inv(t, L) && Content(t, L) == DiskContent(t.v, L, t.h.hdr.byteSize)
  {
    Arrive(t, L);
  }

  function AtEOF(s: FS): FS {
    var size := s.h.hdr.byteSize;
    FS(s.v, s.h.(pos := size, posInDataBlk := if size % FFS_BLOCK == 0 then FFS_BLOCK else size % FFS_BLOCK))
  }

  lemma SeekEOFUnfolds(s: FS)
    requires s.h.hdr.byteSize > 0 && Seek(s, s.h.hdr.byteSize - 1).rc == RcOk
    ensures SeekEOF(s) == Outcome(AtEOF(Seek(s, s.h.hdr.byteSize - 1).s), RcOk)
  {
    hide Seek;
  }

  lemma SeekEOFStep(s: FS, L: Layout)
    requires Inv(s, L) && !s.h.changed
    ensures var size := s.h.hdr.byteSize;
            Arrived(s, SeekEOF(WithPos(s, size)), L, size)
  {
    hide Inv, AtRest, Seek, SeekStart, Content, DiskContent;
    OpenFacts(s, L);
    var size := s.h.hdr.byteSize;
    var s2 := WithPos(s, size);
    if size == 0 {
      SeekStartStep(s2, L);
    } else {
      SeekLastByte(s, L);
      SeekEOFUnfolds(s2);
      var o := Seek(s2, size - 1);
      AtEndOf(o.s, L);
      ArriveLoaded(o.s, AtEOF(o.s), L);
    }
  }

  lemma AtEndOf(s: FS, L: Layout)
    requires Inv(s, L) && !s.h.changed && s.h.hdr.byteSize > 0 && s.h.pos == s.h.hdr.byteSize - 1
    requires s.h.posInDataBlk < FFS_BLOCK
    ensures CursorOK(AtEOF(s).h, L)
  {
    var size := s.h.hdr.byteSize;
    assert size - 1 == FFS_BLOCK * (s.h.nDataBlock - 1) + s.h.posInDataBlk;
    assert size == FFS_BLOCK * (s.h.nDataBlock - 1) + (s.h.posInDataBlk + 1);
  }

  /** The result of a successful seek. */
  ghost predicate Sought(s: FS, o: Outcome, L: Layout, pos: nat) {
    && o.rc == RcOk
    && Inv(o.s, L)
    && o.s.h.pos == pos
    && Content(o.s, L) == Content(s, L)
    && o.s.v.free == s.v.free
    && SameOutside(s.v, o.s.v, L.own.Keys)
    && o.s.h.modeRead == s.h.modeRead && o.s.h.modeWrite == s.h.modeWrite
    && o.s.h.hdr == s.h.hdr
  }

  lemma SeekHere(s: FS, pos: nat)
    requires s.h.curDataPtr != 0 && s.h.pos != pos && s.h.nDataBlock > 0 && s.h.nDataBlock - 1 == pos / FFS_BLOCK
    ensures var p := Min(pos, s.h.hdr.byteSize);
            Seek(s, pos) == Outcome(FS(s.v, s.h.(pos := p, posInDataBlk := p % FFS_BLOCK)), RcOk)
  {
  }

  /** Within the cached block only the position moves, and a changed block stays changed. */
  lemma SeekSameBlock(s: FS, L: Layout, pos: nat)
    requires Inv(s, L) && s.h.curDataPtr != 0 && s.h.pos != pos && s.h.nDataBlock - 1 == pos / FFS_BLOCK
    ensures Sought(s, Seek(s, pos), L, Min(pos, s.h.hdr.byteSize))
  {
    var t := Seek(s, pos).s;
    var p := Min(pos, s.h.hdr.byteSize);
    SeekHere(s, pos);
    hide Seek;
    assert p / FFS_BLOCK == s.h.nDataBlock - 1;
    SameBlocksSameContent(s, L, t, L);
  }

  /**
    adfFileSeek reaches the position asked for, or the end of the file if that comes
    first, whichever way it takes; the handle is whole again and the content unchanged.
  */
  lemma SeekReaches(s: FS, L: Layout, pos: nat)
    requires Inv(s, L)
    ensures Sought(s, Seek(s, pos), L, Min(pos, s.h.hdr.byteSize))
  {
    var size := s.h.hdr.byteSize;
    if s.h.pos == pos && s.h.curDataPtr != 0 {
    } else if s.h.curDataPtr != 0 && s.h.nDataBlock - 1 == pos / FFS_BLOCK {
      SeekSameBlock(s, L, pos);
    } else {
      SeekElsewhere(s, L, pos);
    }
  }

  lemma ArrivedIsSought(s: FS, s1: FS, o: Outcome, L: Layout, pos: nat)
    requires Arrived(s1, o, L, pos)
    requires Content(s, L) == DiskContent(s1.v, L, s1.h.hdr.byteSize)
    requires s1.v.free == s.v.free && SameOutside(s.v, s1.v, L.own.Keys)
    requires s1.h.hdr == s.h.hdr && s1.h.modeRead == s.h.modeRead && s1.h.modeWrite == s.h.modeWrite
    ensures Sought(s, o, L, pos)
  {
  }

  lemma LoadedIsCounted(s: FS, L: Layout)
    requires Inv(s, L)
    ensures s.h.curDataPtr != 0 ==> s.h.nDataBlock > 0
  {
  }

  /** In another block: the changed block is written back before it is replaced. */
  lemma SeekElsewhere(s: FS, L: Layout, pos: nat)
    requires Inv(s, L) && (s.h.curDataPtr == 0 || (s.h.pos != pos && s.h.nDataBlock - 1 != pos / FFS_BLOCK))
    ensures Sought(s, Seek(s, pos), L, Min(pos, s.h.hdr.byteSize))
  {
    hide Inv, AtRest, SeekInside, FlushIfChanged, SeekStart, SeekEOF, Arrived, Sought, SameOutside, Content, DiskContent;
    FlushIfChangedStep(s, L);
    var s1 := FlushIfChanged(s);
    var size := s.h.hdr.byteSize;
    CleanContent(s1, L);
    var o := if pos == 0 then SeekStart(s1) else SeekExt(s1, pos);
    LoadedIsCounted(s, L);
    assert Seek(s, pos) == o;
    if pos < size {
      SeekBeforeEnd(s1, L, pos);
    } else if pos == 0 {
      SeekStartStep(s1, L);
    } else {
      SeekEOFStep(s1, L);
      assert SeekExt(s1, pos) == SeekEOF(WithPos(s1, size));
    }
    ArrivedIsSought(s, s1, o, L, Min(pos, size));
  }

  /** Opening a stored file seeks to its start. */
  lemma OpenStored(v: Vol, hdr: Node, L: Layout, r: bool, w: bool)
    requires Stored(v, hdr, L)
    ensures var s := FS(v, NewHandle(hdr, r, w));
            var t := Seek(s, 0).s;
            && Inv(t, L) && t.v == v && t.h.pos == 0
            && Seek(s, 0).rc == RcOk
            && t.h.modeRead == r && t.h.modeWrite == w && t.h.hdr == hdr
            && Content(t, L) == DiskContent(v, L, hdr.byteSize)
  {
    var s := FS(v, NewHandle(hdr, r, w));
    assert AtRest(s, L);
    SeekStartStep(s, L);
    SeekFromNew(s);
  }

  lemma SeekFromNew(s: FS)
    requires s.h.curDataPtr == 0 && !s.h.changed
    ensures Seek(s, 0) == SeekStart(s)
  {
    hide SeekStart;
  }
}
