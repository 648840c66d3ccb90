/** Truncating an open file to a smaller or larger size. */
module FileResize {
  import opened FileUtil
  import opened Blocks
  import opened FileSpec
  import opened FileInv
  import opened FileWrite
  import opened FileSeek
  import opened TruncateSpec
  import opened FileTruncate
  import opened FileShrink
  import opened FileEnlarge

  /** The file after a shrink: the first bytes of it are left, and the sectors of the others are free. */
  ghost predicate ShrunkTo(s: FS, L: Layout, t: FS, L': Layout, size': nat) {
    && Inv(t, L') && t.h.pos == size'
    && size' <= |Content(s, L)|
    && Content(t, L') == Content(s, L)[..size']
    && t.h.modeRead == s.h.modeRead && t.h.modeWrite == s.h.modeWrite
    && L'.header == L.header && L'.data <= L.data && L'.exts <= L.exts && L'.own.Keys <= L.own.Keys
    && SameOutside(s.v, t.v, L.own.Keys)
    && t.v.free == s.v.free + (L.own.Keys - L'.own.Keys)
    && |t.v.free| + RealSize(size', FFS_BLOCK).total == |s.v.free| + RealSize(s.h.hdr.byteSize, FFS_BLOCK).total
  }

  lemma ShrunkLayout(s: FS, L: Layout, size': nat) returns (L': Layout)
    requires Inv(s, L) && ListsRemoval(s.v, s.h.hdr, L, size') && s.h.modeWrite && size' < s.h.hdr.byteSize && KeepsHandle(s.h, size')
    ensures var o := Shrink(s, size');
            o.rc == RcOk && ShrunkTo(s, L, o.s, L', size')
  {
    hide Inv, ListsRemoval, Shrink, Content, RealSize, SameOutside;
    L' := ShrinkRefines(s, L, size');
  }

  /** The file with zeros appended. */
  ghost predicate EnlargedTo(s: FS, L: Layout, t: FS, L': Layout, size': nat) {
    && size' > s.h.hdr.byteSize
    && Inv(t, L') && t.h.pos == size' == t.h.hdr.byteSize
    && Content(t, L') == Content(s, L) + Zeros(size' - s.h.hdr.byteSize)
    && Extends(s, L, t, L')
  }

  /** Without room: fewer zeros than it takes, and a refused append. */
  ghost predicate StoppedBefore(s: FS, L: Layout, u: FS, L': Layout, size': nat) {
    exists t: FS ::
      s.h.hdr.byteSize <= t.h.hdr.byteSize < size' && Stopped(s, L, u, t, L', t.h.hdr.byteSize - s.h.hdr.byteSize)
  }

  /**
    A file that is not writable is refused. For another size, a truncation succeeds exactly if
    the walk finds what to remove, or if there is room. It comes to the new size with the
    handle whole: shrunk where the handle can be kept and what is found is right, with zeros
    appended where there is room, and unchanged for the size it has. When it fails, nothing
    changes, or fewer zeros than asked for are appended before an append is refused.
  */
  ghost predicate Truncated(s: FS, L: Layout, o: Outcome, L': Layout, size': nat) {
    var size := s.h.hdr.byteSize;
    if !s.h.modeWrite then o.rc == RcError && o.s == s && L' == L
    else if size' == size then Sought(s, o, L', size) && L' == L
    else if size' > size then
      && (o.rc == RcOk <==> RoomFor(s, L, size'))
      && (o.rc == RcOk <==> o.s.h.hdr.byteSize == size')
      && if RoomFor(s, L, size') then EnlargedTo(s, L, o.s, L', size') else StoppedBefore(s, L, o.s, L', size')
    else
      && (o.rc == RcOk <==> BlocksToRemove(s.v, s.h.hdr, size').Some?)
      && (o.rc != RcOk ==> o.s == s && L' == L)
      && (KeepsHandle(s.h, size') && ListsRemoval(s.v, s.h.hdr, L, size') ==> o.rc == RcOk && ShrunkTo(s, L, o.s, L', size'))
  }

  lemma EnlargedOrStopped(s: FS, L: Layout, size': nat) returns (L': Layout)
    requires Inv(s, L) && s.h.modeWrite && size' > s.h.hdr.byteSize
    ensures VolOK(s.v) && Truncated(s, L, Truncate(s, size'), L', size')
  {
    hide Inv, Seek, Enlarge, Content, Extends, RoomFor, VolOK, Stopped, Zeros;
    InvVolOK(s, L);
    if RoomFor(s, L, size') {
      L' := EnlargeRefines(s, L, size');
      ContentLength(Enlarge(s, size').s, L');
      ContentLength(s, L);
    } else {
      var t, done;
      t, L', done := EnlargeStops(s, L, size');
      StoppedSize(s, L, Enlarge(s, size').s, t, L', done);
    }
  }

  lemma StoppedSize(s: FS, L: Layout, u: FS, t: FS, L': Layout, done: nat)
    requires Stopped(s, L, u, t, L', done)
    ensures t.h.hdr.byteSize == s.h.hdr.byteSize + done == u.h.hdr.byteSize
  {
  }

  /** adfFileTruncate to a smaller size: what it returns. */
  lemma ShrinkReturns(s: FS, L: Layout, size': nat)
    requires Inv(s, L) && size' < s.h.hdr.byteSize
    ensures var o := Shrink(s, size');
            && (o.rc == RcOk <==> BlocksToRemove(s.v, s.h.hdr, size').Some?)
            && (o.rc != RcOk ==> o.s == s)
  {
    hide Inv, BlocksToRemove, Seek, Content, Size2Datablocks, Sought;
    SeekReaches(s, L, size');
    SoughtExtends(s, L, Seek(s, size'), size');
  }

  /** adfFileTruncate */
  lemma TruncateRefines(s: FS, L: Layout, size': nat) returns (L': Layout)
    requires Inv(s, L)
    ensures VolOK(s.v) && Truncated(s, L, Truncate(s, size'), L', size')
  {
    hide Inv, ListsRemoval, Seek, Shrink, Enlarge, ShrunkTo, Content, Extends, RoomFor, KeepsHandle, Sought, VolOK, BlocksToRemove,
         StoppedBefore, EnlargedTo;
    InvVolOK(s, L);
    L' := L;
    var size := s.h.hdr.byteSize;
    if s.h.modeWrite {
      if size' == size {
        SeekReaches(s, L, size');
      } else if size' > size {
        L' := EnlargedOrStopped(s, L, size');
      } else {
        ShrinkReturns(s, L, size');
        if KeepsHandle(s.h, size') && ListsRemoval(s.v, s.h.hdr, L, size') {
          L' := ShrunkLayout(s, L, size');
        }
      }
    }
  }
}
