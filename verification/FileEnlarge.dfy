/** Enlarging an open file appends zeros, chunk by chunk. */
module FileEnlarge {
  import opened FileUtil
  import opened Blocks
  import opened FileSpec
  import opened FileInv
  import opened FileGrow
  import opened FileLimits
  import opened FileWrite
  import opened FileSeek
  import opened TruncateSpec

  ghost predicate AtEnd(s: FS, L: Layout) {
    Inv(s, L) && s.h.modeWrite && s.h.pos == s.h.hdr.byteSize
  }

  lemma SpliceAtEnd(c: seq<byte>, b: seq<byte>)
    ensures Splice(c, |c|, b) == c + b
  {
  }

  lemma ZerosJoin(a: nat, b: nat)
    ensures Zeros(a) + Zeros(b) == Zeros(a + b)
  {
  }

  lemma RoomLess(s: FS, L: Layout, a: nat, b: nat)
    requires a <= b && RoomFor(s, L, b)
    ensures RoomFor(s, L, a)
  {
    Size2DatablocksLeast(a, FFS_BLOCK, Size2Datablocks(b, FFS_BLOCK));
    Size2DatablocksLeast(b, FFS_BLOCK, Size2Datablocks(b, FFS_BLOCK));
    BlocksMonotone(Size2Datablocks(a, FFS_BLOCK), Size2Datablocks(b, FFS_BLOCK));
  }

  /** One chunk of zeros at the end of the file. */
  lemma FillChunk(s: FS, L: Layout, chunk: nat) returns (t: FS, L': Layout)
    requires AtEnd(s, L) && RoomFor(s, L, s.h.pos + chunk)
    ensures VolOK(s.v) && VolOK(t.v)
    ensures Write(s, Zeros(chunk)) == Written(t, chunk)
    ensures AtEnd(t, L') && t.h.pos == s.h.pos + chunk
    ensures Content(t, L') == Content(s, L) + Zeros(chunk)
    ensures Extends(s, L, t, L')
    ensures forall m: nat :: RoomFor(t, L', m) <==> RoomFor(s, L, m)
  {
    hide Write, Content, Inv, VolOK, Splice;
    InvVolOK(s, L);
    L' := WriteRefines(s, L, Zeros(chunk));
    t := Write(s, Zeros(chunk)).s;
    ContentLength(s, L);
    ContentLength(t, L');
    SpliceAtEnd(Content(s, L), Zeros(chunk));
    InvVolOK(t, L');
    InvVolOK(s, L);
  }

  /** The file after `n` zeros more. */
  ghost predicate Filled(s: FS, L: Layout, w: Written, L': Layout, n: nat) {
    && w.count == n
    && AtEnd(w.s, L') && w.s.h.pos == s.h.pos + n
    && Content(w.s, L') == Content(s, L) + Zeros(n)
    && Extends(s, L, w.s, L')
  }

  lemma FillOn(s: FS, L: Layout, t: FS, L1: Layout, w: Written, L': Layout, chunk: nat, n: nat)
    requires chunk <= n && Filled(s, L, Written(t, chunk), L1, chunk) && Filled(t, L1, w, L', n - chunk)
    ensures Filled(s, L, Written(w.s, chunk + w.count), L', n)
  {
    hide AtEnd, Zeros, Content, Extends;
    ZerosJoin(chunk, n - chunk);
    assert Content(s, L) + Zeros(chunk) + Zeros(n - chunk) == Content(s, L) + (Zeros(chunk) + Zeros(n - chunk));
    ExtendsTransitive(s, L, t, L1, w.s, L');
  }

  lemma FillNothing(s: FS, L: Layout)
    requires AtEnd(s, L)
    ensures VolOK(s.v) && Filled(s, L, WriteFilled(s, 0), L, 0)
  {
    FilledNothing(s);
    NoExtension(s, L);
    hide Inv, WriteFilled, Extends;
    assert Content(s, L) + Zeros(0) == Content(s, L);
  }

  lemma EndVolOK(s: FS, L: Layout)
    requires AtEnd(s, L)
    ensures VolOK(s.v)
  {
  }

  lemma {:induction false} WriteFilledRefines(s: FS, L: Layout, n: nat) returns (L': Layout)
    requires AtEnd(s, L) && RoomFor(s, L, s.h.pos + n)
    ensures VolOK(s.v)
    ensures Filled(s, L, WriteFilled(s, n), L', n)
    decreases n
  {
    hide AtEnd, Inv, Write, Content, RoomFor, Extends, WriteFilled, Zeros, Filled, VolOK;
    EndVolOK(s, L);
    if n == 0 {
      L' := L;
      FillNothing(s, L);
    } else {
      var chunk := Min(n, FILL_CHUNK);
      RoomLess(s, L, s.h.pos + chunk, s.h.pos + n);
      var t, L1 := FillChunk(s, L, chunk);
      assert Filled(s, L, Written(t, chunk), L1, chunk) by {
        IsFilled(s, L, t, L1, chunk);
      }
      L' := WriteFilledRefines(t, L1, n - chunk);
      FilledUnfolds(s, n, chunk, t);
      FillOn(s, L, t, L1, WriteFilled(t, n - chunk), L', chunk, n);
    }
  }

  lemma IsFilled(s: FS, L: Layout, t: FS, L': Layout, n: nat)
    requires AtEnd(t, L') && t.h.pos == s.h.pos + n
    requires Content(t, L') == Content(s, L) + Zeros(n)
    requires Extends(s, L, t, L')
    ensures Filled(s, L, Written(t, n), L', n)
  {
  }

  lemma FilledNothing(s: FS)
    requires VolOK(s.v)
    ensures WriteFilled(s, 0) == Written(s, 0)
  {
  }

  lemma FilledUnfolds(s: FS, n: nat, chunk: nat, t: FS)
    requires VolOK(s.v) && VolOK(t.v) && n > 0 && chunk == Min(n, FILL_CHUNK)
    requires Write(s, Zeros(chunk)) == Written(t, chunk)
    ensures var r := WriteFilled(t, n - chunk);
            WriteFilled(s, n) == Written(r.s, chunk + r.count)
  {
    hide Write;
  }

  lemma NoExtension(s: FS, L: Layout)
    ensures Extends(s, L, s, L)
  {
    assert s.v.free - s.v.free == {};
  }

  /** Enlarging a file, with room for it, appends zeros and nothing else. */
  lemma EnlargeRefines(s: FS, L: Layout, size': nat) returns (L': Layout)
    requires Inv(s, L) && s.h.modeWrite && size' > s.h.hdr.byteSize && RoomFor(s, L, size')
    ensures VolOK(s.v) && VolOK(Seek(s, s.h.hdr.byteSize).s.v)
    ensures var o := Enlarge(s, size');
            && o.rc == RcOk
            && Inv(o.s, L') && o.s.h.pos == size'
            && Content(o.s, L') == Content(s, L) + Zeros(size' - s.h.hdr.byteSize)
            && Extends(s, L, o.s, L')
  {
    hide Inv, Seek, Content, WriteFilled, Sought, Zeros, Extends, RoomFor, VolOK;
    var size := s.h.hdr.byteSize;
    SeekReaches(s, L, size);
    var t := Seek(s, size).s;
    SoughtExtends(s, L, Seek(s, size), size);
    InvVolOK(s, L);
    InvVolOK(t, L);
    ExtendsModes(s, L, t, L);
    SoughtFree(s, L, Seek(s, size), size);
    SameRoom(s, t, L, size');
    L' := WriteFilledRefines(t, L, size' - size);
    ExtendsTransitive(s, L, t, L, WriteFilled(t, size' - size).s, L');
  }

  lemma SameRoom(s: FS, t: FS, L: Layout, size: nat)
    requires t.v.free == s.v.free && RoomFor(s, L, size)
    ensures RoomFor(t, L, size)
  {
  }

  lemma SoughtFree(s: FS, L: Layout, o: Outcome, pos: nat)
    requires Sought(s, o, L, pos)
    ensures o.s.v.free == s.v.free
  {
  }

  lemma SoughtExtends(s: FS, L: Layout, o: Outcome, pos: nat)
    requires Sought(s, o, L, pos)
    ensures Extends(s, L, o.s, L)
    ensures Inv(o.s, L) && o.s.h.pos == pos && Content(o.s, L) == Content(s, L) && o.s.h.hdr == s.h.hdr && o.rc == RcOk
  {
    assert s.v.free - o.s.v.free == {};
  }

  /* ---- without room ---- */

  /**
    What filling or enlarging leaves of a file for which there is no room: the handle is that
    of a file `t` with the old bytes and `done` zeros, at the end of a full last block, after
    one more append was refused. What becomes of such a handle is said of refused appends.
  */
  ghost predicate Stopped(s: FS, L: Layout, u: FS, t: FS, L': Layout, done: nat) {
    && Inv(t, L') && VolOK(t.v) && Extends(s, L, t, L')
    && Content(t, L') == Content(s, L) + Zeros(done)
    && t.h.pos == t.h.hdr.byteSize == s.h.hdr.byteSize + done
    && AtFullEnd(t, L') && |t.v.free| < AppendCost(|L'.data|)
    && u == Clean(CreateNextBlock(t).s) && u.h.hdr.byteSize == t.h.hdr.byteSize
  }

  /** The chunk that is cut short. */
  lemma ChunkRefused(s: FS, L: Layout, chunk: nat) returns (t: FS, L': Layout)
    requires AtEnd(s, L) && !RoomFor(s, L, s.h.pos + chunk)
    ensures VolOK(s.v)
    ensures var w := Write(s, Zeros(chunk));
            w.count < chunk && Stopped(s, L, w.s, t, L', w.count)
  {
    hide Inv, RoomFor, WriteLoop, CreateNextBlock, Content, Splice, NeedsBlock, AtFullEnd;
    ContentLength(s, L);
    WriteShort(s, L, Zeros(chunk));
    var w := WriteLoop(s, Zeros(chunk));
    L' := WriteRefines(s, L, Zeros(chunk)[..w.count]);
    t := WriteLoop(s, Zeros(chunk)[..w.count]).s;
    assert Zeros(chunk)[..w.count] == Zeros(w.count);
    SpliceAtEnd(Content(s, L), Zeros(w.count));
    ContentLength(t, L');
    ShortEnd(s, L, t, L');
    RefusedSize(t, L');
  }

  lemma RefusedSize(t: FS, L: Layout)
    requires AtFullEnd(t, L) && |t.v.free| < AppendCost(|L.data|) && VolOK(t.v)
    ensures CreateNextBlock(t).s.h.hdr.byteSize == t.h.hdr.byteSize
  {
    hide Inv, AtFullEnd, CreateNextBlock;
    RefusedAppend(t, L);
    CursorAfterRefusal(t);
  }

  /** A file always has room for the bytes it has. */
  lemma RoomAsIs(s: FS, L: Layout)
    requires AtEnd(s, L)
    ensures RoomFor(s, L, s.h.pos)
  {
    var n := |L.data|;
    if n > 0 {
      Size2DatablocksLeast(s.h.hdr.byteSize, FFS_BLOCK, n);
      Size2DatablocksLeast(s.h.hdr.byteSize, FFS_BLOCK, n - 1);
    }
  }

  lemma StoppedOn(s: FS, L: Layout, t1: FS, L1: Layout, u: FS, t: FS, L': Layout, chunk: nat, done: nat)
    requires Extends(s, L, t1, L1) && Content(t1, L1) == Content(s, L) + Zeros(chunk)
    requires t1.h.hdr.byteSize == s.h.hdr.byteSize + chunk && Stopped(t1, L1, u, t, L', done)
    ensures Stopped(s, L, u, t, L', chunk + done)
  {
    hide Inv, Content, Extends, AtFullEnd, CreateNextBlock, Zeros, VolOK;
    ExtendsTransitive(s, L, t1, L1, t, L');
    ZerosJoin(chunk, done);
    assert Content(s, L) + Zeros(chunk) + Zeros(done) == Content(s, L) + (Zeros(chunk) + Zeros(done));
  }

  lemma FillStops(s: FS, n: nat, chunk: nat)
    requires VolOK(s.v) && n > 0 && chunk == Min(n, FILL_CHUNK) && Write(s, Zeros(chunk)).count < chunk
    ensures WriteFilled(s, n) == Write(s, Zeros(chunk))
  {
    hide Write;
  }

  /** Filling without room for all stops short: it counts the zeros that were written. */
  lemma {:induction false} WriteFilledStops(s: FS, L: Layout, n: nat) returns (t: FS, L': Layout)
    requires AtEnd(s, L) && !RoomFor(s, L, s.h.pos + n)
    ensures VolOK(s.v)
    ensures var w := WriteFilled(s, n);
            w.count < n && Stopped(s, L, w.s, t, L', w.count)
    decreases n
  {
    hide Inv, Write, Content, RoomFor, Extends, WriteFilled, Zeros, VolOK, Stopped;
    EndVolOK(s, L);
    RoomAsIs(s, L);
    var chunk := Min(n, FILL_CHUNK);
    if RoomFor(s, L, s.h.pos + chunk) {
      var t1, L1 := FillChunk(s, L, chunk);
      t, L' := WriteFilledStops(t1, L1, n - chunk);
      FilledUnfolds(s, n, chunk, t1);
      StoppedOn(s, L, t1, L1, WriteFilled(t1, n - chunk).s, t, L', chunk, WriteFilled(t1, n - chunk).count);
    } else {
      t, L' := ChunkRefused(s, L, chunk);
      FillStops(s, n, chunk);
    }
  }

  /** Enlarging a file without room for it fails, and the file holds fewer zeros than asked for. */
  lemma EnlargeStops(s: FS, L: Layout, size': nat) returns (t: FS, L': Layout, done: nat)
    requires Inv(s, L) && s.h.modeWrite && size' > s.h.hdr.byteSize && !RoomFor(s, L, size')
    ensures VolOK(s.v) && VolOK(Seek(s, s.h.hdr.byteSize).s.v)
    ensures var o := Enlarge(s, size');
            o.rc == RcError && done < size' - s.h.hdr.byteSize && Stopped(s, L, o.s, t, L', done)
  {
    hide Inv, Seek, Content, WriteFilled, Sought, Zeros, Extends, RoomFor, VolOK, Stopped;
    var size := s.h.hdr.byteSize;
    SeekReaches(s, L, size);
    var u := Seek(s, size).s;
    SoughtExtends(s, L, Seek(s, size), size);
    InvVolOK(s, L);
    InvVolOK(u, L);
    ExtendsModes(s, L, u, L);
    SoughtFree(s, L, Seek(s, size), size);
    NoRoomEither(s, u, L, size');
    t, L' := WriteFilledStops(u, L, size' - size);
    done := WriteFilled(u, size' - size).count;
    assert Content(s, L) + Zeros(0) == Content(s, L) by { assert Zeros(0) == []; }
    StoppedOn(s, L, u, L, WriteFilled(u, size' - size).s, t, L', 0, done);
  }

  lemma NoRoomEither(s: FS, t: FS, L: Layout, size: nat)
    requires t.v.free == s.v.free && !RoomFor(s, L, size)
    ensures !RoomFor(t, L, size)
  {
  }
}
