/** Writing refines splicing a byte string. */
module FileWrite {
  import opened FileUtil
  import opened Blocks
  import opened FileSpec
  import opened FileInv
  import opened FileSteps
  import opened FileGrow

  /** `c` with `b` written over it from position `p` on. */
  function Splice(c: seq<byte>, p: nat, b: seq<byte>): seq<byte>
    requires p <= |c|
  {
    c[..p] + b + (if p + |b| < |c| then c[p + |b|..] else [])
  }

  lemma SpliceTwice(c: seq<byte>, p: nat, a: seq<byte>, b: seq<byte>)
    requires p <= |c|
    ensures |Splice(c, p, a)| >= p + |a|
    ensures Splice(Splice(c, p, a), p + |a|, b) == Splice(c, p, a + b)
  {
    var l, r := Splice(Splice(c, p, a), p + |a|, b), Splice(c, p, a + b);
    assert |l| == |r|;
    forall q | 0 <= q < |l| ensures l[q] == r[q] {
    }
  }

  lemma BlockOf(i: nat, m: nat)
    requires m < FFS_BLOCK
    ensures (FFS_BLOCK * i + m) / FFS_BLOCK == i && (FFS_BLOCK * i + m) % FFS_BLOCK == m
  {
  }

  /** When block `i0` has `chunk` copied in and the others are as before, the content is spliced. */
  lemma SplicedContent(c: seq<byte>, t: FS, L: Layout, i0: nat, p0: nat, chunk: seq<byte>)
    requires FFS_BLOCK * i0 + p0 <= |c| && p0 + |chunk| <= FFS_BLOCK
    requires t.h.hdr.byteSize == Max(|c|, FFS_BLOCK * i0 + p0 + |chunk|)
    requires forall q :: 0 <= q < |c| && q / FFS_BLOCK != i0 ==>
               BlockBytes(t, L, q / FFS_BLOCK)[q % FFS_BLOCK] == c[q]
    requires forall m :: 0 <= m < FFS_BLOCK ==>
               && (p0 <= m < p0 + |chunk| ==> BlockBytes(t, L, i0)[m] == chunk[m - p0])
               && (!(p0 <= m < p0 + |chunk|) && FFS_BLOCK * i0 + m < |c| ==>
                     BlockBytes(t, L, i0)[m] == c[FFS_BLOCK * i0 + m])
    ensures Content(t, L) == Splice(c, FFS_BLOCK * i0 + p0, chunk)
  {
    var pos := FFS_BLOCK * i0 + p0;
    var l, r := Content(t, L), Splice(c, pos, chunk);
    forall q | 0 <= q < |l| ensures l[q] == r[q] {
      var i, m := q / FFS_BLOCK, q % FFS_BLOCK;
      assert l[q] == BlockBytes(t, L, i)[m];
      if i == i0 {
        assert q == FFS_BLOCK * i0 + m;
      } else {
        assert q < |c|;
        assert q < pos || q >= pos + |chunk|;
      }
    }
  }

  lemma CopyInContent(s: FS, L: Layout, chunk: seq<byte>)
    requires s.h.nDataBlock > 0 && s.h.pos == FFS_BLOCK * (s.h.nDataBlock - 1) + s.h.posInDataBlk <= s.h.hdr.byteSize
    requires s.h.posInDataBlk + |chunk| <= FFS_BLOCK
    ensures Content(CopyIn(s, chunk), L) == Splice(Content(s, L), s.h.pos, chunk)
  {
    var c, t, i0 := Content(s, L), CopyIn(s, chunk), s.h.nDataBlock - 1;
    forall q | 0 <= q < |c| && q / FFS_BLOCK != i0
      ensures BlockBytes(t, L, q / FFS_BLOCK)[q % FFS_BLOCK] == c[q]
    {
    }
    forall m | 0 <= m < FFS_BLOCK && FFS_BLOCK * i0 + m < |c|
      ensures c[FFS_BLOCK * i0 + m] == s.h.data[m]
    {
      BlockOf(i0, m);
    }
    SplicedContent(c, t, L, i0, s.h.posInDataBlk, chunk);
  }

  /** Copying into the cached block of an open file. */
  lemma CopyInStep(s: FS, L: Layout, chunk: seq<byte>)
    requires Inv(s, L) && s.h.modeWrite && |L.data| > 0
    requires chunk != [] && s.h.posInDataBlk + |chunk| <= FFS_BLOCK
    ensures Inv(CopyIn(s, chunk), L)
    ensures s.h.pos <= |Content(s, L)|
    ensures Content(CopyIn(s, chunk), L) == Splice(Content(s, L), s.h.pos, chunk)
  {
    CopyInKeepsInv(s, L, chunk);
    CopyInContent(s, L, chunk);
  }

  lemma CopyInKeepsInv(s: FS, L: Layout, chunk: seq<byte>)
    requires Inv(s, L) && s.h.modeWrite && |L.data| > 0
    requires chunk != [] && s.h.posInDataBlk + |chunk| <= FFS_BLOCK
    ensures Inv(CopyIn(s, chunk), L)
  {
    var t := CopyIn(s, chunk);
    if s.h.nDataBlock < |L.data| {
      assert t.h.hdr == s.h.hdr;
    } else {
      assert forall k :: 0 <= k < 72 ==> Slot(t.h.hdr, k) == Slot(s.h.hdr, k);
      assert HdrOK(t.h.hdr, L);
      forall j | 0 <= j < |L.exts| ensures IsCachedExt(t.h, L, j) || ExtOnDisk(t.v, L, j) {
        assert IsCachedExt(s.h, L, j) || ExtOnDisk(s.v, L, j);
      }
      assert forall i :: 0 <= i < |L.data| - 1 ==> DataOnDisk(s.v, L, i);
    }
  }

  /** Copying the first bytes into a block that was just appended. */
  lemma CopyInAppended(s: FS, L: Layout, o: Outcome, L': Layout, chunk: seq<byte>)
    requires AtFullEnd(s, L) && Appended(s, L, o, L')
    requires 0 < |chunk| <= FFS_BLOCK
    ensures var t := CopyIn(AtBlockStart(Clean(o.s)), chunk);
            && Inv(t, L')
            && s.h.pos == |Content(s, L)|
            && Content(t, L') == Splice(Content(s, L), s.h.pos, chunk)
  {
    hide AtFullEnd, Inv, Content, Splice, CopyIn, Grown;
    var u := AtBlockStart(Clean(o.s));
    FullEndFacts(s, L);
    FullEndBase(s, L);
    AppendedGrown(s, L, o, L');
    GrownCopyIn(u, L', chunk);
    AppendedContent(s, L, o, L');
    CopyInContent(u, L', chunk);
    ContentLength(s, L);
  }

  lemma AppendedGrown(s: FS, L: Layout, o: Outcome, L': Layout)
    requires AtFullEnd(s, L) && Appended(s, L, o, L')
    ensures var u := AtBlockStart(Clean(o.s));
            && Grown(u, L') && u.h.posInDataBlk == 0
            && u.h.pos == s.h.pos == s.h.hdr.byteSize == u.h.hdr.byteSize
            && u.h.nDataBlock > 0 && u.h.pos == FFS_BLOCK * (u.h.nDataBlock - 1)
  {
    hide Inv;
  }

  /** Appending a block adds no byte. */
  lemma AppendedContent(s: FS, L: Layout, o: Outcome, L': Layout)
    requires AtFullEnd(s, L) && Appended(s, L, o, L')
    ensures Content(AtBlockStart(Clean(o.s)), L') == Content(s, L)
  {
    FullEndFacts(s, L);
    var u := AtBlockStart(Clean(o.s));
    forall i | 0 <= FFS_BLOCK * i < s.h.hdr.byteSize ensures BlockBytes(u, L', i) == BlockBytes(s, L, i) {
      assert 0 <= i < |L.data|;
      assert DiskBlock(o.s.v, L', i) == BlockBytes(s, L, i);
    }
    SameBlocksSameContent(s, L, u, L');
  }

  /**
    From `s` to `t` the file only took free sectors: what it owns grew by exactly the
    sectors that are no longer free, and nothing else on the disk changed.
  */
  ghost predicate Extends(s: FS, L: Layout, t: FS, L': Layout) {
    && L'.header == L.header
    && t.h.modeRead == s.h.modeRead && t.h.modeWrite == s.h.modeWrite
    && t.v.free <= s.v.free
    && L'.own.Keys == L.own.Keys + (s.v.free - t.v.free)
    && |t.v.free| + BlocksOf(|L'.data|) == |s.v.free| + BlocksOf(|L.data|)
    && SameOutside(s.v, t.v, L'.own.Keys)
  }

  lemma ExtendsTransitive(s: FS, L: Layout, t: FS, L': Layout, u: FS, L'': Layout)
    requires Extends(s, L, t, L') && Extends(t, L', u, L'')
    ensures Extends(s, L, u, L'')
  {
    assert s.v.free - u.v.free == (s.v.free - t.v.free) + (t.v.free - u.v.free);
  }

  lemma CopyInExtends(s: FS, L: Layout, t: FS, L': Layout, chunk: seq<byte>)
    requires Extends(s, L, t, L') && t.h.posInDataBlk + |chunk| <= FFS_BLOCK
    ensures Extends(s, L, CopyIn(t, chunk), L')
  {
  }

  lemma MoreInside(s: FS, L: Layout)
    requires Inv(s, L) && s.h.pos < s.h.hdr.byteSize && s.h.posInDataBlk == FFS_BLOCK
    ensures 0 < s.h.nDataBlock < |L.data| && ExtCursorOK(s.h, L)
    ensures s.h.pos == FFS_BLOCK * s.h.nDataBlock
  {
  }

  lemma LoadedNext(s: FS, o: Outcome, L: Layout)
    requires 0 < s.h.nDataBlock < |L.data| && s.h.pos == FFS_BLOCK * s.h.nDataBlock < s.h.hdr.byteSize
    requires MovedOn(s, o, L) && !s.h.changed
    ensures var t := AtBlockStart(o.s);
            && Inv(t, L) && t.v == s.v
            && Content(t, L) == DiskContent(s.v, L, s.h.hdr.byteSize)
            && t.h.pos == s.h.pos && t.h.hdr == s.h.hdr
            && t.h.modeRead == s.h.modeRead && t.h.modeWrite == s.h.modeWrite
  {
    Arrive(AtBlockStart(o.s), L);
  }

  /** Inside the file, at the right end of the cached block: it is flushed and the next one is read. */
  lemma NextForWrite(s: FS, L: Layout)
    requires Inv(s, L) && s.h.pos < s.h.hdr.byteSize && s.h.posInDataBlk == FFS_BLOCK
    ensures var o := ReadNextBlock(FlushIfChanged(s));
            var t := AtBlockStart(o.s);
            && o.rc == RcOk
            && Inv(t, L) && t.h.pos == s.h.pos && t.h.posInDataBlk == 0
            && t.h.hdr.byteSize == s.h.hdr.byteSize
            && Content(t, L) == Content(s, L)
            && Extends(s, L, t, L)
  {
    FlushIfChangedStep(s, L);
    var f := FlushIfChanged(s);
    MoreInside(s, L);
    MoreInside(f, L);
    CleanContent(f, L);
    ReadNextStep(f, L);
    LoadedNext(f, ReadNextBlock(f), L);
    hide FlushIfChanged, ReadNextBlock, Inv, AtRest, Content, DiskContent;
    assert s.v.free - f.v.free == {};
  }

  /** Does the next round of the write loop append a block? */
  predicate NeedsBlock(s: FS) {
    s.h.pos % FFS_BLOCK == 0 && s.h.pos == s.h.hdr.byteSize
  }

  ghost predicate RoundDone(s: FS, L: Layout, t: FS, L': Layout, chunk: seq<byte>)
  {
    && Inv(t, L')
    && t.h.pos == s.h.pos + |chunk|
    && t.h.hdr.byteSize == Max(s.h.hdr.byteSize, t.h.pos)
    && s.h.pos <= |Content(s, L)|
    && Content(t, L') == Splice(Content(s, L), s.h.pos, chunk)
    && Extends(s, L, t, L')
  }

  lemma PrepareInside(s: FS, L: Layout)
    requires Inv(s, L) && s.h.modeWrite && !NeedsBlock(s)
    ensures var o := PrepareWrite(s);
            && o.rc == RcOk && o.s.h.posInDataBlk < FFS_BLOCK
            && Inv(o.s, L) && |L.data| > 0
            && o.s.h.pos == s.h.pos && o.s.h.hdr.byteSize == s.h.hdr.byteSize
            && Content(o.s, L) == Content(s, L)
            && Extends(s, L, o.s, L)
  {
    if s.h.pos % FFS_BLOCK == 0 && s.h.posInDataBlk == FFS_BLOCK {
      NextForWrite(s, L);
      assert |L.data| > 0;
      hide ReadNextBlock, FlushIfChanged, Inv, Content, Extends;
    } else {
      assert PrepareWrite(s).s == s;
      assert s.v.free - s.v.free == {};
    }
  }

  /** A round of the write loop inside the blocks the file has. */
  lemma RoundInside(s: FS, L: Layout, buf: seq<byte>)
    requires Inv(s, L) && s.h.modeWrite && buf != [] && !NeedsBlock(s)
    ensures var o := PrepareWrite(s);
            && o.rc == RcOk && o.s.h.posInDataBlk < FFS_BLOCK
            && var size := Min(|buf|, FFS_BLOCK - o.s.h.posInDataBlk);
               RoundDone(s, L, CopyIn(o.s, buf[..size]), L, buf[..size])
  {
    InvVolOK(s, L);
    hide PrepareWrite, Inv, Content, Extends, Splice;
    PrepareInside(s, L);
    var o := PrepareWrite(s);
    var size := Min(|buf|, FFS_BLOCK - o.s.h.posInDataBlk);
    assert o.s.h.modeWrite by { ExtendsModes(s, L, o.s, L); }
    CopyInStep(o.s, L, buf[..size]);
    CopyInExtends(s, L, o.s, L, buf[..size]);
  }

  lemma ExtendsModes(s: FS, L: Layout, t: FS, L': Layout)
    requires Extends(s, L, t, L')
    ensures t.h.modeRead == s.h.modeRead && t.h.modeWrite == s.h.modeWrite
  {
  }

  /** A round of the write loop that appends a block. */
  lemma RoundAppending(s: FS, L: Layout, buf: seq<byte>) returns (L': Layout)
    requires Inv(s, L) && s.h.modeWrite && buf != [] && NeedsBlock(s)
    requires |s.v.free| >= AppendCost(|L.data|)
    ensures var o := PrepareWrite(s);
            && o.rc == RcOk && o.s.h.posInDataBlk < FFS_BLOCK
            && var size := Min(|buf|, FFS_BLOCK - o.s.h.posInDataBlk);
               RoundDone(s, L, CopyIn(o.s, buf[..size]), L', buf[..size])
  {
    L' := CreateStep(s, L);
    var o := CreateNextBlock(s);
    var size := Min(|buf|, FFS_BLOCK);
    CopyInAppended(s, L, o, L', buf[..size]);
    CopyInExtends(s, L, AtBlockStart(Clean(o.s)), L', buf[..size]);
  }

  lemma BlocksMonotone(m: nat, n: nat)
    requires m <= n
    ensures BlocksOf(m) <= BlocksOf(n)
  {
  }

  lemma SizeBlocks(s: FS, L: Layout)
    requires Inv(s, L)
    ensures Size2Datablocks(s.h.hdr.byteSize, FFS_BLOCK) == |L.data|
    ensures NeedsBlock(s) ==> s.h.hdr.byteSize == FFS_BLOCK * |L.data|
  {
    var n := |L.data|;
    if n > 0 {
      Size2DatablocksLeast(s.h.hdr.byteSize, FFS_BLOCK, n);
      Size2DatablocksLeast(s.h.hdr.byteSize, FFS_BLOCK, n - 1);
    }
  }

  /** The free sectors suffice for the file to reach `size` bytes. */
  ghost predicate RoomFor(s: FS, L: Layout, size: nat) {
    |s.v.free| + BlocksOf(|L.data|) >= Size2Blocks(size, FFS_BLOCK)
  }

  lemma RoomToAppend(s: FS, L: Layout, n: nat)
    requires Inv(s, L) && NeedsBlock(s) && n > 0
    requires RoomFor(s, L, s.h.pos + n)
    ensures |s.v.free| >= AppendCost(|L.data|)
  {
    SizeBlocks(s, L);
    Size2DatablocksLeast(s.h.pos + n, FFS_BLOCK, |L.data|);
    BlocksMonotone(|L.data| + 1, Size2Datablocks(s.h.pos + n, FFS_BLOCK));
  }

  /** Where the write loop goes on after `size` bytes of `buf`. */
  ghost predicate LoopsTo(s: FS, buf: seq<byte>, t: FS, size: nat)
    requires VolOK(s.v) && VolOK(t.v) && size <= |buf|
  {
    && WriteLoop(s, buf).s == WriteLoop(t, buf[size..]).s
    && WriteLoop(s, buf).count == size + WriteLoop(t, buf[size..]).count
  }

  lemma LoopUnfolds(s: FS, buf: seq<byte>, size: nat)
    requires VolOK(s.v) && PrepareWrite(s).rc == RcOk && PrepareWrite(s).s.h.posInDataBlk < FFS_BLOCK
    requires buf != [] && size == Min(|buf|, FFS_BLOCK - PrepareWrite(s).s.h.posInDataBlk)
    requires VolOK(PrepareWrite(s).s.v)
    ensures LoopsTo(s, buf, CopyIn(PrepareWrite(s).s, buf[..size]), size)
  {
    hide PrepareWrite;
    PrepareWriteVolOK(s);
  }

  lemma InvVolOK(s: FS, L: Layout)
    requires Inv(s, L)
    ensures VolOK(s.v)
  {
  }

  /** A round of the write loop: some of the bytes are written, and the loop goes on with the others. */
  lemma RoundStep(s: FS, L: Layout, buf: seq<byte>) returns (t: FS, L1: Layout, size: nat)
    requires Inv(s, L) && s.h.modeWrite && buf != []
    requires NeedsBlock(s) ==> |s.v.free| >= AppendCost(|L.data|)
    ensures 0 < size <= |buf|
    ensures RoundDone(s, L, t, L1, buf[..size])
    ensures VolOK(s.v) && VolOK(t.v)
    ensures LoopsTo(s, buf, t, size)
    ensures forall k :: size <= k < |buf| ==> LoopsTo(s, buf[..k], t, size)
  {
    hide Inv, PrepareWrite, RoundDone, LoopsTo, WriteLoop, AppendCost, NeedsBlock;
    InvVolOK(s, L);
    PrepareWriteVolOK(s);
    L1 := L;
    if NeedsBlock(s) {
      L1 := RoundAppending(s, L, buf);
    } else {
      RoundInside(s, L, buf);
    }
    var o := PrepareWrite(s);
    size := Min(|buf|, FFS_BLOCK - o.s.h.posInDataBlk);
    t := CopyIn(o.s, buf[..size]);
    LoopUnfolds(s, buf, size);
    forall k | size <= k < |buf| ensures LoopsTo(s, buf[..k], t, size) {
      assert buf[..k][..size] == buf[..size];
      LoopUnfolds(s, buf[..k], size);
    }
  }

  lemma RoundDoneInv(s: FS, L: Layout, t: FS, L': Layout, chunk: seq<byte>)
    requires RoundDone(s, L, t, L', chunk)
    ensures Inv(t, L') && t.h.modeWrite == s.h.modeWrite
  {
  }

  /** A round of the write loop that is refused ends the loop. */
  lemma RefusedUnfolds(s: FS, buf: seq<byte>)
    requires VolOK(s.v) && buf != [] && PrepareWrite(s).rc != RcOk
    ensures WriteLoop(s, buf) == Written(PrepareWrite(s).s, 0)
  {
    hide PrepareWrite;
  }

  lemma RefusedRound(s: FS, L: Layout)
    requires Inv(s, L) && s.h.modeWrite && NeedsBlock(s) && |s.v.free| < AppendCost(|L.data|)
    ensures VolOK(s.v) && PrepareWrite(s).rc != RcOk
  {
    CreateRefused(s, L);
  }

  /** Every round of the write loop is refused, or leaves an open file with which the loop goes on. */
  lemma WriteRound(s: FS, L: Layout, buf: seq<byte>) returns (L1: Layout)
    requires Inv(s, L) && s.h.modeWrite && buf != []
    ensures VolOK(s.v)
    ensures var o := PrepareWrite(s);
            if o.rc != RcOk then WriteLoop(s, buf) == Written(o.s, 0)
            else
              && o.s.h.posInDataBlk < FFS_BLOCK
              && var size := Min(|buf|, FFS_BLOCK - o.s.h.posInDataBlk);
                 var t := CopyIn(o.s, buf[..size]);
                 Inv(t, L1) && VolOK(t.v) && t.h.modeWrite && LoopsTo(s, buf, t, size)
  {
    hide Inv, PrepareWrite, RoundDone, LoopsTo, WriteLoop, AppendCost, NeedsBlock;
    InvVolOK(s, L);
    PrepareWriteVolOK(s);
    L1 := L;
    if NeedsBlock(s) && |s.v.free| < AppendCost(|L.data|) {
      RefusedRound(s, L);
      RefusedUnfolds(s, buf);
    } else {
      if NeedsBlock(s) {
        L1 := RoundAppending(s, L, buf);
      } else {
        RoundInside(s, L, buf);
      }
      var size := Min(|buf|, FFS_BLOCK - PrepareWrite(s).s.h.posInDataBlk);
      RoundDoneInv(s, L, CopyIn(PrepareWrite(s).s, buf[..size]), L1, buf[..size]);
      LoopUnfolds(s, buf, size);
    }
  }

  lemma NothingDone(s: FS, L: Layout)
    requires Inv(s, L)
    ensures RoundDone(s, L, s, L, [])
  {
    assert s.v.free - s.v.free == {};
    assert Splice(Content(s, L), s.h.pos, []) == Content(s, L);
  }

  lemma {:induction false} WriteLoopRefines(s: FS, L: Layout, buf: seq<byte>) returns (L': Layout)
    requires Inv(s, L) && s.h.modeWrite
    requires RoomFor(s, L, Max(s.h.hdr.byteSize, s.h.pos + |buf|))
    ensures VolOK(s.v)
    ensures var w := WriteLoop(s, buf);
            && w.count == |buf|
            && RoundDone(s, L, w.s, L', buf)
    decreases |buf|
  {
    hide Inv, RoundDone, RoomFor, NeedsBlock, PrepareWrite;
    InvVolOK(s, L);
    if buf == [] {
      L' := L;
      NothingDone(s, L);
    } else {
      hide WriteLoop;
      if NeedsBlock(s) {
        EndRoom(s, L, |buf|);
        RoomToAppend(s, L, |buf|);
      }
      var t, L1, size := RoundStep(s, L, buf);
      RoundDoneInv(s, L, t, L1, buf[..size]);
      RoundRoom(s, L, t, L1, buf, size);
      L' := WriteLoopRefines(t, L1, buf[size..]);
      ChainRounds(s, L, t, L1, WriteLoop(t, buf[size..]).s, L', buf, size);
    }
  }

  lemma EndRoom(s: FS, L: Layout, n: nat)
    requires NeedsBlock(s) && RoomFor(s, L, Max(s.h.hdr.byteSize, s.h.pos + n))
    ensures RoomFor(s, L, s.h.pos + n)
  {
  }

  /**
    adfFileWrite refines splicing a byte string: with room for the new size, all bytes
    are written, the content is the old one with them spliced in at the position, and
    the file only grew by sectors that were free.
  */
  lemma WriteRefines(s: FS, L: Layout, buf: seq<byte>) returns (L': Layout)
    requires Inv(s, L) && s.h.modeWrite
    requires RoomFor(s, L, Max(s.h.hdr.byteSize, s.h.pos + |buf|))
    ensures var w := Write(s, buf);
            && w.count == |buf|
            && Inv(w.s, L')
            && w.s.h.pos == s.h.pos + |buf|
            && s.h.pos <= |Content(s, L)|
            && Content(w.s, L') == Splice(Content(s, L), s.h.pos, buf)
            && Extends(s, L, w.s, L')
  {
    L' := WriteLoopRefines(s, L, buf);
  }

  /** A round leaves room for a size exactly if there was room for it before. */
  lemma RoundRoom(s: FS, L: Layout, t: FS, L1: Layout, buf: seq<byte>, size: nat)
    requires Inv(s, L) && size <= |buf| && RoundDone(s, L, t, L1, buf[..size])
    ensures Max(t.h.hdr.byteSize, t.h.pos + |buf[size..]|) == Max(s.h.hdr.byteSize, s.h.pos + |buf|)
    ensures forall m: nat :: RoomFor(t, L1, m) <==> RoomFor(s, L, m)
  {
  }

  lemma ChainRounds(s: FS, L: Layout, t: FS, L1: Layout, u: FS, L': Layout, buf: seq<byte>, size: nat)
    requires size <= |buf|
    requires RoundDone(s, L, t, L1, buf[..size]) && RoundDone(t, L1, u, L', buf[size..])
    ensures RoundDone(s, L, u, L', buf)
  {
    hide Inv, Content, Extends, Splice;
    SpliceTwice(Content(s, L), s.h.pos, buf[..size], buf[size..]);
    assert buf[..size] + buf[size..] == buf;
    ExtendsTransitive(s, L, t, L1, u, L');
  }

  /** How a write that is cut short ends. */
  ghost predicate CutShort(s: FS, buf: seq<byte>, w: Written)
    requires VolOK(s.v)
  {
    && w.count < |buf|
    && var t := WriteLoop(s, buf[..w.count]);
       && t.count == w.count
       && NeedsBlock(t.s) && VolOK(t.s.v)
       && CreateNextBlock(t.s).rc == RcVolFull
       && w.s == Clean(CreateNextBlock(t.s).s)
  }

  lemma NoRoomNow(s: FS, L: Layout)
    requires Inv(s, L) && NeedsBlock(s) && s.h.modeWrite && |s.v.free| < AppendCost(|L.data|)
    ensures VolOK(s.v)
    ensures forall buf: seq<byte> :: buf != [] ==> CutShort(s, buf, WriteLoop(s, buf))
    ensures forall buf: seq<byte> :: buf != [] ==> WriteLoop(s, buf).count == 0
    ensures RoomFor(s, L, Max(s.h.hdr.byteSize, s.h.pos))
  {
    SizeBlocks(s, L);
    CreateRefused(s, L);
    forall buf: seq<byte> | buf != []
      ensures CutShort(s, buf, WriteLoop(s, buf)) && WriteLoop(s, buf).count == 0
    {
      assert PrepareWrite(s).rc == RcVolFull;
      assert WriteLoop(s, buf) == Written(PrepareWrite(s).s, 0);
      assert buf[..0] == [];
      assert WriteLoop(s, []) == Written(s, 0);
    }
  }

  lemma HasRoomForNothing(s: FS, L: Layout)
    requires Inv(s, L)
    ensures RoomFor(s, L, Max(s.h.hdr.byteSize, s.h.pos))
  {
    SizeBlocks(s, L);
  }

  /**
    Without room adfFileWrite stops short. What it wrote is a full write of a shorter
    buffer, as long as there is room for, followed by a refused append after which the
    cached block no longer counts as changed.
  */
  lemma {:induction false} WriteShort(s: FS, L: Layout, buf: seq<byte>)
    requires Inv(s, L) && s.h.modeWrite
    requires !RoomFor(s, L, Max(s.h.hdr.byteSize, s.h.pos + |buf|))
    ensures VolOK(s.v)
    ensures CutShort(s, buf, WriteLoop(s, buf))
    ensures RoomFor(s, L, Max(s.h.hdr.byteSize, s.h.pos + WriteLoop(s, buf).count))
    decreases |buf|
  {
    hide Inv, RoundDone, RoomFor, NeedsBlock, PrepareWrite, CreateNextBlock, AppendCost, WriteLoop;
    InvVolOK(s, L);
    HasRoomForNothing(s, L);
    if NeedsBlock(s) && |s.v.free| < AppendCost(|L.data|) {
      NoRoomNow(s, L);
    } else {
      var t, L1, size := RoundStep(s, L, buf);
      RoundDoneInv(s, L, t, L1, buf[..size]);
      RoundRoom(s, L, t, L1, buf, size);
      WriteShort(t, L1, buf[size..]);
      var k := WriteLoop(t, buf[size..]).count;
      assert LoopsTo(s, buf[..size + k], t, size);
      assert buf[..size + k][size..] == buf[size..][..k];
      assert buf[..size + k][..size] == buf[..size];
      RoundRoom(s, L, t, L1, buf[..size + k], size);
    }
  }
}
