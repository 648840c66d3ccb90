/** Reading returns the bytes of the content from the position on. */
module FileRead {
  import opened FileUtil
  import opened Blocks
  import opened FileSpec
  import opened FileInv
  import opened FileSteps

  /** Does a read of `n` bytes replace the cached block? */
  predicate Crosses(s: FS, n: nat) {
    n > 0 && s.h.pos + n > FFS_BLOCK * s.h.nDataBlock
  }

  /** What the content is after a read: the cached block is dropped without being written. */
  ghost function ContentAfterRead(s: FS, L: Layout, n: nat): seq<byte> {
    if Crosses(s, n) then DiskContent(s.v, L, s.h.hdr.byteSize) else Content(s, L)
  }

  /** The handle after a read of `n` bytes. */
  ghost predicate ReadDone(s: FS, L: Layout, t: FS, n: nat) {
    && Inv(t, L)
    && t.v == s.v
    && t.h.pos == s.h.pos + n
    && t.h.hdr == s.h.hdr && t.h.modeRead == s.h.modeRead && t.h.modeWrite == s.h.modeWrite
    && Content(t, L) == ContentAfterRead(s, L, n)
  }

  function Forward(s: FS, size: nat): FS {
    FS(s.v, s.h.(pos := s.h.pos + size, posInDataBlk := s.h.posInDataBlk + size))
  }

  lemma ForwardStep(s: FS, L: Layout, size: nat)
    requires Inv(s, L) && |L.data| > 0
    requires s.h.posInDataBlk + size <= FFS_BLOCK && s.h.pos + size <= s.h.hdr.byteSize
    ensures Inv(Forward(s, size), L)
    ensures Content(Forward(s, size), L) == Content(s, L)
    ensures Content(s, L)[s.h.pos..s.h.pos + size] == s.h.data[s.h.posInDataBlk..s.h.posInDataBlk + size]
  {
    ForwardInv(s, L, size);
    ForwardBytes(s, L, size);
    SameBlocksSameContent(s, L, Forward(s, size), L);
  }

  lemma ForwardInv(s: FS, L: Layout, size: nat)
    requires Inv(s, L) && |L.data| > 0
    requires s.h.posInDataBlk + size <= FFS_BLOCK && s.h.pos + size <= s.h.hdr.byteSize
    ensures Inv(Forward(s, size), L)
    ensures s.h.nDataBlock > 0 && s.h.pos == FFS_BLOCK * (s.h.nDataBlock - 1) + s.h.posInDataBlk
  {
  }

  lemma ForwardBytes(s: FS, L: Layout, size: nat)
    requires s.h.nDataBlock > 0 && s.h.pos == FFS_BLOCK * (s.h.nDataBlock - 1) + s.h.posInDataBlk
    requires s.h.posInDataBlk + size <= FFS_BLOCK && s.h.pos + size <= s.h.hdr.byteSize
    ensures Content(s, L)[s.h.pos..s.h.pos + size] == s.h.data[s.h.posInDataBlk..s.h.posInDataBlk + size]
  {
    var l := Content(s, L)[s.h.pos..s.h.pos + size];
    var r := s.h.data[s.h.posInDataBlk..s.h.posInDataBlk + size];
    forall q | 0 <= q < size ensures l[q] == r[q] {
      var p := s.h.pos + q;
      assert p == FFS_BLOCK * (s.h.nDataBlock - 1) + (s.h.posInDataBlk + q);
      assert p / FFS_BLOCK == s.h.nDataBlock - 1 && p % FFS_BLOCK == s.h.posInDataBlk + q;
    }
  }

  /** At the right end of the cached block, the next one is read over it. */
  lemma NextForRead(s: FS, L: Layout)
    requires Inv(s, L) && s.h.pos < s.h.hdr.byteSize && s.h.posInDataBlk == FFS_BLOCK
    ensures var o := PrepareRead(s);
            && o.rc == RcOk && o.s.h.posInDataBlk == 0 && o.s.h.nDataBlock == s.h.nDataBlock + 1
            && Inv(o.s, L) && !o.s.h.changed
            && o.s.v == s.v && o.s.h.pos == s.h.pos
            && o.s.h.hdr == s.h.hdr && o.s.h.modeRead == s.h.modeRead && o.s.h.modeWrite == s.h.modeWrite
            && Content(o.s, L) == DiskContent(s.v, L, s.h.hdr.byteSize)
  {
    MoreToCome(s, L);
    ReadNextStep(s, L);
    var o := ReadNextBlock(s);
    assert PrepareRead(s) == Outcome(AtBlockStart(Clean(o.s)), RcOk);
    hide ReadNextBlock, PrepareRead;
    MovedOnIsOpen(s, o, L);
  }

  lemma MoreToCome(s: FS, L: Layout)
    requires Inv(s, L) && s.h.pos < s.h.hdr.byteSize && s.h.posInDataBlk == FFS_BLOCK
    ensures AtRest(s, L) && 0 < s.h.nDataBlock < |L.data| && ExtCursorOK(s.h, L)
    ensures s.h.pos == FFS_BLOCK * s.h.nDataBlock
  {
  }

  lemma MovedOnIsOpen(s: FS, o: Outcome, L: Layout)
    requires 0 < s.h.nDataBlock < |L.data| && s.h.pos == FFS_BLOCK * s.h.nDataBlock < s.h.hdr.byteSize
    requires MovedOn(s, o, L)
    ensures var t := AtBlockStart(Clean(o.s));
            && Inv(t, L) && Content(t, L) == DiskContent(t.v, L, t.h.hdr.byteSize)
  {
    Arrive(AtBlockStart(Clean(o.s)), L);
  }

  /** Beyond the cached block the content is what the disk holds. */
  lemma ContentBeyond(s: FS, L: Layout, p: nat, q: nat)
    requires FFS_BLOCK * s.h.nDataBlock <= p <= q <= s.h.hdr.byteSize
    ensures DiskContent(s.v, L, s.h.hdr.byteSize)[p..q] == Content(s, L)[p..q]
  {
    var d, c := DiskContent(s.v, L, s.h.hdr.byteSize), Content(s, L);
    forall r | p <= r < q ensures d[r] == c[r] {
      assert r / FFS_BLOCK >= s.h.nDataBlock;
    }
  }

  lemma JoinSlices(c: seq<byte>, d: seq<byte>, p: nat, m: nat, q: nat)
    requires p <= m <= q <= |c| && |d| == |c| && d[m..q] == c[m..q]
    ensures c[p..m] + d[m..q] == c[p..q]
  {
  }

  lemma ReadLoopUnfolds(s: FS, n: nat, size: nat)
    requires n > 0 && PrepareRead(s).rc == RcOk && PrepareRead(s).s.h.posInDataBlk < FFS_BLOCK
    requires size == Min(n, FFS_BLOCK - PrepareRead(s).s.h.posInDataBlk)
    ensures var u := PrepareRead(s).s;
            var r := ReadLoop(Forward(u, size), n - size);
            ReadLoop(s, n) == ReadResult(r.s, u.h.data[u.h.posInDataBlk..u.h.posInDataBlk + size] + r.bytes)
  {
    hide PrepareRead;
  }

  lemma CursorFacts(s: FS, L: Layout)
    requires Inv(s, L) && s.h.hdr.byteSize > 0
    ensures |L.data| > 0 && s.h.nDataBlock > 0 && s.h.posInDataBlk <= FFS_BLOCK
    ensures s.h.pos == FFS_BLOCK * (s.h.nDataBlock - 1) + s.h.posInDataBlk
    ensures !s.h.changed ==> Content(s, L) == DiskContent(s.v, L, s.h.hdr.byteSize)
  {
    if !s.h.changed {
      CleanContent(s, L);
    }
  }

  lemma {:induction false} ReadLoopReturns(s: FS, L: Layout, n: nat)
    requires Inv(s, L) && s.h.pos + n <= s.h.hdr.byteSize
    ensures var r := ReadLoop(s, n);
            && r.bytes == Content(s, L)[s.h.pos..s.h.pos + n]
            && ReadDone(s, L, r.s, n)
    decreases n, 1
  {
    hide Inv, ReadLoop, PrepareRead, Content, DiskContent, ReadDone;
    if n == 0 {
      ReadNothing(s);
      ContentLength(s, L);
      ReadNoneDone(s, L);
    } else {
      var u := PrepareRead(s).s;
      CursorFacts(s, L);
      if s.h.posInDataBlk == FFS_BLOCK {
        NextForRead(s, L);
        assert u == PrepareRead(s).s;
        ContentBeyond(s, L, s.h.pos, s.h.pos + n);
      } else {
        PrepareReadStays(s);
      }
      var size := Min(n, FFS_BLOCK - u.h.posInDataBlk);
      CursorFacts(u, L);
      ReadRound(s, L, u, n, size);
    }
  }

  lemma ReadNoneDone(s: FS, L: Layout)
    requires Inv(s, L)
    ensures ReadDone(s, L, s, 0)
  {
    hide Inv;
  }

  lemma PrepareReadStays(s: FS)
    requires s.h.posInDataBlk != FFS_BLOCK
    ensures PrepareRead(s) == Outcome(s, RcOk)
  {
  }

  /** One round of the read loop, and the rest of it. */
  lemma {:induction false} ReadRound(s: FS, L: Layout, u: FS, n: nat, size: nat)
    requires Inv(s, L) && Inv(u, L) && |L.data| > 0
    requires n > 0 && s.h.pos + n <= s.h.hdr.byteSize
    requires PrepareRead(s) == Outcome(u, RcOk) && u.h.posInDataBlk < FFS_BLOCK
    requires u.v == s.v && u.h.pos == s.h.pos && u.h.hdr == s.h.hdr
    requires u.h.modeRead == s.h.modeRead && u.h.modeWrite == s.h.modeWrite
    requires size == Min(n, FFS_BLOCK - u.h.posInDataBlk)
    requires s.h.nDataBlock > 0 && s.h.pos == FFS_BLOCK * (s.h.nDataBlock - 1) + s.h.posInDataBlk
    requires u.h.nDataBlock > 0 && u.h.pos == FFS_BLOCK * (u.h.nDataBlock - 1) + u.h.posInDataBlk
    requires if s.h.posInDataBlk == FFS_BLOCK then
               && u.h.nDataBlock == s.h.nDataBlock + 1
               && Content(u, L) == DiskContent(s.v, L, s.h.hdr.byteSize)
             else u == s
    requires Content(u, L)[s.h.pos..s.h.pos + n] == Content(s, L)[s.h.pos..s.h.pos + n]
    ensures var r := ReadLoop(s, n);
            && r.bytes == Content(s, L)[s.h.pos..s.h.pos + n]
            && ReadDone(s, L, r.s, n)
    decreases n, 0
  {
    hide Inv, ReadLoop, PrepareRead, Content, DiskContent;
    ReadLoopUnfolds(s, n, size);
    ForwardStep(u, L, size);
    var t := Forward(u, size);
    ReadLoopReturns(t, L, n - size);
    ContentLength(u, L);
    JoinSlices(Content(u, L), Content(u, L), s.h.pos, s.h.pos + size, s.h.pos + n);
  }

  lemma ReadIsLoop(s: FS, n: nat)
    requires s.h.modeRead && s.h.pos <= s.h.hdr.byteSize < U32 && s.h.pos + n < U32
    ensures Read(s, n) == ReadLoop(s, Min(s.h.pos + n, s.h.hdr.byteSize) - s.h.pos)
  {
    hide ReadLoop;
    var size := s.h.hdr.byteSize;
    SmallMod(s.h.pos + n);
    SmallMod(size - s.h.pos);
    ReadNothing(s);
  }

  lemma SmallMod(x: int)
    requires 0 <= x < U32
    ensures x % U32 == x
  {
  }

  lemma ReadNothing(s: FS)
    ensures ReadLoop(s, 0) == ReadResult(s, [])
  {
  }

  lemma PosInFile(s: FS, L: Layout)
    requires Inv(s, L)
    ensures s.h.pos <= s.h.hdr.byteSize
  {
  }

  /**
    adfFileRead returns the bytes from the position to the end of the read or of the
    file, whatever state the cached block is in, and moves the position behind them.
    Position and count must not add up beyond 32 bits.
  */
  lemma ReadReturns(s: FS, L: Layout, n: nat)
    requires Inv(s, L) && s.h.modeRead
    requires s.h.pos + n < U32 && s.h.hdr.byteSize < U32
    ensures var end := Min(s.h.pos + n, s.h.hdr.byteSize);
            var r := Read(s, n);
            && s.h.pos <= end <= |Content(s, L)|
            && r.bytes == Content(s, L)[s.h.pos..end]
            && ReadDone(s, L, r.s, end - s.h.pos)
  {
    hide Inv, Read, ReadLoop, ReadDone, Content;
    PosInFile(s, L);
    ContentLength(s, L);
    ReadIsLoop(s, n);
    ReadLoopReturns(s, L, Min(s.h.pos + n, s.h.hdr.byteSize) - s.h.pos);
  }

  /** However a read is split into two calls, it returns the same bytes. */
  lemma ReadSplit(s: FS, L: Layout, a: nat, b: nat)
    requires Inv(s, L) && s.h.modeRead
    requires s.h.pos + a + b < U32 && s.h.hdr.byteSize < U32
    ensures Read(s, a).bytes + Read(Read(s, a).s, b).bytes == Read(s, a + b).bytes
  {
    hide Inv, Read, ReadDone, Content, DiskContent, ContentAfterRead;
    var size := s.h.hdr.byteSize;
    ReadReturns(s, L, a);
    ReadReturns(s, L, a + b);
    var t := Read(s, a).s;
    var m, e := Min(s.h.pos + a, size), Min(s.h.pos + a + b, size);
    ReadDoneFacts(s, L, t, m - s.h.pos);
    ReadReturns(t, L, b);
    ContentLength(s, L);
    ContentLength(t, L);
    AfterRead(s, L, t, m, e);
    JoinSlices(Content(s, L), Content(t, L), s.h.pos, m, e);
  }

  lemma ReadDoneFacts(s: FS, L: Layout, t: FS, n: nat)
    requires ReadDone(s, L, t, n)
    ensures Inv(t, L) && t.h.hdr == s.h.hdr && t.h.modeRead == s.h.modeRead && t.h.pos == s.h.pos + n
    ensures Content(t, L) == ContentAfterRead(s, L, n)
  {
  }

  /** A read leaves the bytes behind it as they were. */
  lemma AfterRead(s: FS, L: Layout, t: FS, m: nat, e: nat)
    requires s.h.pos <= m <= e <= s.h.hdr.byteSize
    requires Content(t, L) == ContentAfterRead(s, L, m - s.h.pos)
    ensures |Content(t, L)| == |Content(s, L)| == s.h.hdr.byteSize
    ensures Content(t, L)[m..e] == Content(s, L)[m..e]
  {
    ContentLength(s, L);
    if Crosses(s, m - s.h.pos) {
      ContentBeyond(s, L, m, e);
    }
  }

  /**
    Reading keeps the content exactly when it stays in the cached block, or the disk
    already has that block: a changed block is not written back before it is replaced.
  */
  lemma ReadKeepsContent(s: FS, L: Layout, n: nat)
    requires Inv(s, L) && s.h.modeRead
    requires s.h.pos + n < U32 && s.h.hdr.byteSize < U32
    ensures var m := Min(s.h.pos + n, s.h.hdr.byteSize) - s.h.pos;
            Content(Read(s, n).s, L) == Content(s, L) <==>
            !Crosses(s, m) || s.v.disk[s.h.curDataPtr] == Data(s.h.data)
  {
    ReadReturns(s, L, n);
    var m := Min(s.h.pos + n, s.h.hdr.byteSize) - s.h.pos;
    if Crosses(s, m) {
      hide Read, ReadDone;
      CrossedBlock(s, L, m);
    }
  }

  lemma CrossedBlock(s: FS, L: Layout, m: nat)
    requires Inv(s, L) && s.h.pos + m <= s.h.hdr.byteSize && Crosses(s, m)
    ensures OnDisk(s.v, s.h.curDataPtr)
    ensures DiskContent(s.v, L, s.h.hdr.byteSize) == Content(s, L) <==> s.v.disk[s.h.curDataPtr] == Data(s.h.data)
  {
    var i := s.h.nDataBlock - 1;
    var d, c := DiskContent(s.v, L, s.h.hdr.byteSize), Content(s, L);
    assert DataOnDisk(s.v, L, i);
    if d == c {
      forall q | 0 <= q < FFS_BLOCK ensures DiskBlock(s.v, L, i)[q] == s.h.data[q] {
        var p := FFS_BLOCK * i + q;
        assert p / FFS_BLOCK == i && p % FFS_BLOCK == q;
        assert d[p] == c[p];
      }
      assert DiskBlock(s.v, L, i) == s.h.data;
    }
    if s.v.disk[s.h.curDataPtr] == Data(s.h.data) {
      forall p | 0 <= p < s.h.hdr.byteSize ensures d[p] == c[p] {
      }
    }
  }
}
