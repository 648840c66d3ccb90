/**
  A full volume: what a refused append leaves behind, and what becomes of a block that was
  not written yet.
*/
module FileLimits {
  import opened FileUtil
  import opened Blocks
  import opened FileSpec
  import opened FileInv
  import opened FileSteps
  import opened FileGrow
  import opened FileWrite
  import opened FileSeek

  /* ---- the refused append ---- */

  /** Sector `e`, the last free one, was taken and linked as an extension block that lists nothing. */
  ghost predicate Dangling(s: FS, L: Layout, t: FS, e: int) {
    && s.v.free == {e} && t.v.free == {} && e !in L.own.Keys && e >= 2
    && |L.data| == MAX_DATABLK * (|L.exts| + 1)
    && t.h.ext == Some(NewExt(e, L.header))
    && (if L.exts == [] then t.h.hdr.extension == e
        else
          var key := L.exts[|L.exts| - 1];
          OnDisk(t.v, key) && t.v.disk[key].Meta? && t.v.disk[key].node.extension == e)
  }

  /**
    An append that is refused changes nothing if no sector is free. If the tables of the
    file are full and one sector is free, that one is lost: it is neither free nor does the
    file need it, and the chain of the file, in memory or on the disk, now leads to it.
  */
  lemma RefusedAppend(s: FS, L: Layout)
    requires AtFullEnd(s, L) && |s.v.free| < AppendCost(|L.data|)
    ensures VolOK(s.v) && CreateNextBlock(s).rc == RcVolFull
    ensures var t := CreateNextBlock(s).s;
            if s.v.free == {} then t == s else Dangling(s, L, t, FirstFree(s.v))
  {
    hide Inv, AtFullEnd, HdrOK, ExtOK, Placed, DataOnDisk, ExtOnDisk, FreeInOrder, LinkExt, LinkedHdr, LinkedExt, NewExt, FirstFree;
    InvVolOKAtEnd(s, L);
    FullEndFacts(s, L);
    FullEndBase(s, L);
    CreateRefused(s, L);
    if s.v.free == {} {
      NothingFree(s);
    } else {
      var e := FirstFree(s.v);
      FullTables(|L.data|, |s.v.free|, L);
      OnlyFree(s, L, e);
      LinkExtStep(s, L, e);
      LinkedAway(s, L, e);
      RefusedSecond(s, e);
    }
  }

  lemma InvVolOKAtEnd(s: FS, L: Layout)
    requires AtFullEnd(s, L)
    ensures VolOK(s.v) && s.v.free !! L.own.Keys
  {
    assert Placed(s.v, L);
    forall x | x in L.own.Keys ensures x !in s.v.free {
    }
  }

  lemma NothingFree(s: FS)
    requires VolOK(s.v) && s.v.free == {} && CreateNextBlock(s).rc == RcVolFull
    ensures CreateNextBlock(s).s == s
  {
    hide LinkExt, FreeInOrder;
  }

  lemma FullTables(n: nat, free: nat, L: Layout)
    requires n == |L.data| && 0 < free < AppendCost(n) && |L.exts| == Datablocks2Extblocks(n)
    ensures n == MAX_DATABLK * (|L.exts| + 1) && free == 1
  {
  }

  lemma OnlyFree(s: FS, L: Layout, e: int)
    requires VolOK(s.v) && |s.v.free| == 1 && e == FirstFree(s.v) && s.v.free !! L.own.Keys
    ensures s.v.free == {e} && e !in L.own.Keys && e >= 2
  {
    hide FreeInOrder;
    assert e in s.v.free;
    assert |s.v.free - {e}| == 0;
  }

  lemma LinkedAway(s: FS, L: Layout, e: int)
    requires s.v.free == {e} && |L.data| == MAX_DATABLK * (|L.exts| + 1) && e !in L.own.Keys && e >= 2
    requires OwnOK(L) && Placed(s.v, L) && VolOK(s.v)
    requires var t := LinkExt(FS(Take(s.v, e), s.h), e);
             && t.h == s.h.(hdr := LinkedHdr(s.h.hdr, |L.data|, e), ext := Some(NewExt(e, L.header)), posInExtBlk := 0)
             && t.v.free == s.v.free - {e}
             && SameOutside(s.v, t.v, if L.exts != [] then {L.exts[|L.exts| - 1]} else {})
             && (L.exts != [] ==>
                   s.h.ext.Some? && t.v.disk[L.exts[|L.exts| - 1]] == Meta(LinkedExt(s.h.ext.value, e)))
    ensures Dangling(s, L, LinkExt(FS(Take(s.v, e), s.h), e), e)
  {
    hide LinkExt;
    if L.exts != [] {
      assert L.own[L.exts[|L.exts| - 1]] == IsExt(|L.exts| - 1);
    }
  }

  lemma RefusedSecond(s: FS, e: int)
    requires VolOK(s.v) && s.v.free == {e} && e == FirstFree(s.v) && CreateNextBlock(s).rc == RcVolFull
    requires s.h.nDataBlock >= MAX_DATABLK && s.h.nDataBlock % MAX_DATABLK == 0
    requires VolOK(LinkExt(FS(Take(s.v, e), s.h), e).v)
    ensures CreateNextBlock(s).s == LinkExt(FS(Take(s.v, e), s.h), e)
  {
    hide LinkExt, FreeInOrder, FirstFree, Advance;
  }

  /** The cached extension block of a whole handle lists at least one block. */
  lemma CachedExtLists(t: FS, L: Layout)
    requires Inv(t, L) && t.h.ext.Some?
    ensures t.h.ext.value.highSeq > 0
  {
    var j := L.own[t.h.ext.value.headerKey].j;
    assert ExtOK(t.h.ext.value, L, j);
    assert |L.exts| == Datablocks2Extblocks(|L.data|);
  }

  /** After a refused append the handle is whole exactly if no sector was free at all. */
  lemma RefusedExact(s: FS, L: Layout)
    requires AtFullEnd(s, L) && |s.v.free| < AppendCost(|L.data|)
    ensures VolOK(s.v)
    ensures (exists L' :: Inv(CreateNextBlock(s).s, L')) <==> s.v.free == {}
  {
    hide Inv;
    RefusedAppend(s, L);
    var t := CreateNextBlock(s).s;
    if s.v.free == {} {
      assert Inv(t, L) by { AtEndInv(s, L); }
    } else {
      forall L' ensures !Inv(t, L') {
        if Inv(t, L') {
          CachedExtLists(t, L');
        }
      }
    }
  }

  lemma AtEndInv(s: FS, L: Layout)
    requires AtFullEnd(s, L)
    ensures Inv(s, L)
  {
  }

  /* ---- what a later seek leaves ---- */

  /** A handle that is not that of block `p / 512` may go there without writing. */
  predicate Leaves(h: Handle, p: nat) {
    !h.changed && h.nDataBlock > 0 && h.curDataPtr != 0 && h.pos != p && h.nDataBlock - 1 != p / FFS_BLOCK && p < h.hdr.byteSize
  }

  lemma LeavingReads(s: FS, p: nat)
    requires Leaves(s.h, p)
    ensures Seek(s, p) == if p == 0 then SeekStart(s) else SeekInside(WithPos(s, p))
    ensures Seek(s, p).s.v == s.v && Seek(s, p).s.h.hdr == s.h.hdr
  {
    SeekKeepsV(s);
    SeekKeepsV(WithPos(s, p));
    hide SeekStart, SeekInside;
  }

  lemma SeekKeepsV(s: FS)
    ensures SeekStart(s).s.v == s.v && SeekStart(s).s.h.hdr == s.h.hdr
    ensures SeekInside(s).s.v == s.v && SeekInside(s).s.h.hdr == s.h.hdr
  {
    hide Pos2DataBlock, ReadExtBlockN;
  }

  /** What block such a seek loads does not depend on the cached extension block. */
  lemma StartAnyExt(s: FS, x: Option<Node>)
    ensures var t := SeekStart(FS(s.v, s.h.(ext := x))).s.h;
            t.data == SeekStart(s).s.h.data && t.nDataBlock == SeekStart(s).s.h.nDataBlock
  {
    hide ReadData;
  }

  lemma LoadAnyExt(s: FS, x: Option<Node>, ptr: int)
    ensures var t := LoadAt(FS(s.v, s.h.(ext := x)), ptr).s.h;
            t.data == LoadAt(s, ptr).s.h.data && t.nDataBlock == LoadAt(s, ptr).s.h.nDataBlock
  {
    hide ReadData;
  }

  lemma InsideAnyExt(s: FS, x: Option<Node>)
    ensures var t := SeekInside(FS(s.v, s.h.(ext := x))).s.h;
            t.data == SeekInside(s).s.h.data && t.nDataBlock == SeekInside(s).s.h.nDataBlock
  {
    hide Pos2DataBlock, ReadExtBlockN, LoadAt;
    var p := Pos2DataBlock(s.h.pos, FFS_BLOCK);
    PosInBlock(s.h.pos);
    var h := s.h.(posInExtBlk := p.posInExtBlk, posInDataBlk := p.posInDataBlk, nDataBlock := p.curDataN);
    var g := s.h.(ext := x).(posInExtBlk := p.posInExtBlk, posInDataBlk := p.posInDataBlk, nDataBlock := p.curDataN);
    assert g == h.(ext := x);
    if p.extBlock == -1 {
      LoadAnyExt(FS(s.v, h), x, Slot(s.h.hdr, p.curDataN));
    } else if ReadExtBlockN(s.v, s.h.hdr, p.extBlock).Some? {
      var y := ReadExtBlockN(s.v, s.h.hdr, p.extBlock).value;
      assert g.(ext := Some(y), posInExtBlk := p.posInExtBlk + 1) == h.(ext := Some(y), posInExtBlk := p.posInExtBlk + 1);
    }
  }

  /** On a file that is on the disk, the block of the position is loaded. */
  lemma LeavingLoads(s: FS, L: Layout, p: nat)
    requires Stored(s.v, s.h.hdr, L) && Leaves(s.h, p)
    ensures var u := Seek(s, p).s;
            u.h.nDataBlock == p / FFS_BLOCK + 1 && u.h.data == DiskBlock(s.v, L, p / FFS_BLOCK)
  {
    var s0 := FS(s.v, s.h.(ext := None));
    assert AtRest(s0, L);
    SeekBeforeEnd(s0, L, p);
    hide SeekStart, SeekInside, Stored;
    LeavingReads(s, p);
    LeavingReads(s0, p);
    StartAnyExt(s, None);
    InsideAnyExt(WithPos(s, p), None);
    WithoutExt(s, p);
    ArrivedBlock(s0, Seek(s0, p), L, p);
  }

  lemma WithoutExt(s: FS, p: nat)
    ensures WithPos(FS(s.v, s.h.(ext := None)), p) == FS(s.v, WithPos(s, p).h.(ext := None))
  {
  }

  lemma ArrivedBlock(s: FS, o: Outcome, L: Layout, p: nat)
    requires Arrived(s, o, L, p) && o.s.h.posInDataBlk < FFS_BLOCK && p < s.h.hdr.byteSize
    ensures o.s.h.nDataBlock == p / FFS_BLOCK + 1 && o.s.h.data == DiskBlock(s.v, L, p / FFS_BLOCK)
  {
    assert |L.data| > 0;
    assert p == FFS_BLOCK * (o.s.h.nDataBlock - 1) + o.s.h.posInDataBlk;
    assert DataOnDisk(o.s.v, L, o.s.h.nDataBlock - 1);
  }

  /** The disk has the whole file, and handle `u` shows the bytes that handle `t` showed. */
  ghost predicate Survives(u: FS, t: FS, L: Layout) {
    Stored(u.v, u.h.hdr, L) && Content(u, L) == Content(t, L)
  }

  /** The disk has everything the handle has in memory. */
  ghost predicate Flushed(t: FS, L: Layout) {
    Stored(t.v, t.h.hdr, L) && OnDisk(t.v, t.h.curDataPtr) && t.v.disk[t.h.curDataPtr] == Data(t.h.data)
  }

  /** On the disk the last extension block of a file has no successor, and a file without them has none. */
  lemma StoredChainEnds(v: Vol, hdr: Node, L: Layout)
    requires Stored(v, hdr, L)
    ensures if L.exts == [] then hdr.extension == 0
            else
              var key := L.exts[|L.exts| - 1];
              OnDisk(v, key) && v.disk[key].Meta? && v.disk[key].node.extension == 0
  {
    if L.exts != [] {
      assert ExtOnDisk(v, L, |L.exts| - 1);
    }
  }

  /** At the end of a full last block: a refused append and then a seek to another block. */
  lemma RefusedThenSeek(t: FS, L: Layout, p: nat)
    requires AtFullEnd(t, L) && |t.v.free| < AppendCost(|L.data|)
    requires p < t.h.hdr.byteSize && p / FFS_BLOCK != |L.data| - 1
    ensures VolOK(t.v)
    ensures Survives(Seek(Clean(CreateNextBlock(t).s), p).s, t, L) <==> t.v.free == {} && Flushed(t, L)
  {
    hide Inv, AtFullEnd, Stored, Content, Seek, CreateNextBlock;
    RefusedAppend(t, L);
    RefusedCursor(t, L, p);
    var c := Clean(CreateNextBlock(t).s);
    LeavingReads(c, p);
    var u := Seek(c, p).s;
    if t.v.free != {} {
      if Stored(c.v, c.h.hdr, L) {
        StoredChainEnds(c.v, c.h.hdr, L);
      }
    } else if Stored(t.v, t.h.hdr, L) {
      LeavingLoads(c, L, p);
      LastBlockCounts(t, u, L, p);
    } else {
      assert c == Clean(t);
    }
  }

  /** The cursor stays where it was when the append is refused. */
  lemma RefusedCursor(t: FS, L: Layout, p: nat)
    requires AtFullEnd(t, L) && |t.v.free| < AppendCost(|L.data|) && VolOK(t.v)
    requires p < t.h.hdr.byteSize && p / FFS_BLOCK != |L.data| - 1
    ensures Leaves(Clean(CreateNextBlock(t).s).h, p)
  {
    RefusedAppend(t, L);
    FullEndFacts(t, L);
    assert L.data[|L.data| - 1] in L.own;
    if t.v.free != {} {
      CursorAfterRefusal(t);
    }
  }

  lemma CursorAfterRefusal(t: FS)
    requires VolOK(t.v) && CreateNextBlock(t).rc == RcVolFull
    ensures var h := CreateNextBlock(t).s.h;
            && h.nDataBlock == t.h.nDataBlock && h.curDataPtr == t.h.curDataPtr && h.pos == t.h.pos
            && h.hdr.byteSize == t.h.hdr.byteSize
  {
    hide FirstFree, Advance, StoreExt, NewExt, VolOK;
    if t.h.nDataBlock >= MAX_DATABLK && t.h.nDataBlock % MAX_DATABLK == 0 && FirstFree(t.v) != -1 {
      LinkExtVolOK(t, FirstFree(t.v));
      LinkedCursor(FS(Take(t.v, FirstFree(t.v)), t.h), FirstFree(t.v));
    }
    hide LinkExt;
  }

  lemma LinkedCursor(t: FS, e: int)
    ensures var h := LinkExt(t, e).h;
            && h.nDataBlock == t.h.nDataBlock && h.curDataPtr == t.h.curDataPtr && h.pos == t.h.pos
            && h.hdr.byteSize == t.h.hdr.byteSize
  {
  }

  /** With another block cached, the content is the same exactly if the disk has the last block. */
  lemma LastBlockCounts(t: FS, u: FS, L: Layout, p: nat)
    requires AtFullEnd(t, L) && p < t.h.hdr.byteSize && p / FFS_BLOCK != |L.data| - 1
    requires u.v == t.v && u.h.hdr == t.h.hdr && Stored(t.v, t.h.hdr, L)
    requires u.h.nDataBlock == p / FFS_BLOCK + 1 && u.h.data == DiskBlock(t.v, L, p / FFS_BLOCK)
    ensures OnDisk(t.v, t.h.curDataPtr)
    ensures Content(u, L) == Content(t, L) <==> t.v.disk[t.h.curDataPtr] == Data(t.h.data)
  {
    FullEndFacts(t, L);
    var n := |L.data|;
    assert DataOnDisk(t.v, L, n - 1);
    if Content(u, L) == Content(t, L) {
      forall q | 0 <= q < FFS_BLOCK ensures DiskBlock(t.v, L, n - 1)[q] == t.h.data[q] {
        var x := FFS_BLOCK * (n - 1) + q;
        assert x / FFS_BLOCK == n - 1 && x % FFS_BLOCK == q;
        assert Content(u, L)[x] == Content(t, L)[x];
      }
      assert DiskBlock(t.v, L, n - 1) == t.h.data;
    }
    if t.v.disk[t.h.curDataPtr] == Data(t.h.data) {
      forall i | 0 <= FFS_BLOCK * i < t.h.hdr.byteSize ensures BlockBytes(u, L, i) == BlockBytes(t, L, i) {
        assert 0 <= i < n;
      }
      SameBlocksSameContent(t, L, u, L);
    }
  }

  /**
    A write that is cut short by a full volume: the bytes it counts are spliced in, but the
    cached last block no longer counts as changed. A seek to any other block then drops it,
    and the file survives exactly if no sector at all was free and the disk had the whole
    file already.
  */
  lemma ShortWriteLosesBlock(s: FS, L: Layout, buf: seq<byte>) returns (t: FS, L': Layout)
    requires Inv(s, L) && s.h.modeWrite
    requires !RoomFor(s, L, Max(s.h.hdr.byteSize, s.h.pos + |buf|))
    ensures VolOK(s.v)
    ensures var w := Write(s, buf);
            && w.count < |buf|
            && Inv(t, L') && s.h.pos <= |Content(s, L)|
            && Content(t, L') == Splice(Content(s, L), s.h.pos, buf[..w.count])
            && t.h.pos == t.h.hdr.byteSize == FFS_BLOCK * |L'.data|
            && (forall p: nat :: p < t.h.hdr.byteSize && p / FFS_BLOCK != |L'.data| - 1 ==>
                  (Survives(Seek(w.s, p).s, t, L') <==> t.v.free == {} && Flushed(t, L')))
  {
    hide Inv, RoomFor, WriteLoop, CreateNextBlock, Content, Splice, Survives, Flushed, Seek, NeedsBlock;
    WriteShort(s, L, buf);
    var w := WriteLoop(s, buf);
    L' := WriteRefines(s, L, buf[..w.count]);
    t := WriteLoop(s, buf[..w.count]).s;
    ShortEnd(s, L, t, L');
    forall p: nat | p < t.h.hdr.byteSize && p / FFS_BLOCK != |L'.data| - 1
      ensures Survives(Seek(w.s, p).s, t, L') <==> t.v.free == {} && Flushed(t, L')
    {
      RefusedThenSeek(t, L', p);
    }
  }

  lemma ShortEnd(s: FS, L: Layout, t: FS, L': Layout)
    requires Inv(t, L') && Extends(s, L, t, L') && s.h.modeWrite && NeedsBlock(t) && VolOK(t.v)
    requires CreateNextBlock(t).rc == RcVolFull
    ensures AtFullEnd(t, L') && |t.v.free| < AppendCost(|L'.data|)
    ensures t.h.pos == t.h.hdr.byteSize == FFS_BLOCK * |L'.data|
  {
    hide CreateNextBlock, Inv;
    AtFullEndFacts(t, L');
    if |t.v.free| >= AppendCost(|L'.data|) {
      var L'' := CreateStep(t, L');
    }
  }

  lemma AtFullEndFacts(t: FS, L: Layout)
    requires Inv(t, L) && NeedsBlock(t) && t.h.modeWrite
    ensures AtFullEnd(t, L) && t.h.pos == FFS_BLOCK * |L.data|
  {
    FullEndFacts(t, L);
  }
}
