/** Appending a data block to an open file, and copying bytes into the cached block. */
module FileGrow {
  import opened FileUtil
  import opened Blocks
  import opened FileSpec
  import opened FileInv
  import opened FileSteps

  function GrowData(L: Layout, x: int): Layout {
    L.(data := L.data + [x], own := L.own[x := IsData(|L.data|)])
  }

  function GrowExt(L: Layout, e: int): Layout {
    L.(exts := L.exts + [e], own := L.own[e := IsExt(|L.exts|)])
  }

  lemma GrowDataOwn(L: Layout, x: int)
    requires OwnOK(L) && x !in L.own
    ensures OwnOK(GrowData(L, x))
    ensures GrowData(L, x).own.Keys == L.own.Keys + {x}
  {
    var L' := GrowData(L, x);
    forall s | s in L'.own
      ensures match L'.own[s]
              case IsHeader => s == L'.header
              case IsData(i) => i < |L'.data| && L'.data[i] == s
              case IsExt(j) => j < |L'.exts| && L'.exts[j] == s
    {
      if s != x {
        assert s in L.own;
      }
    }
  }

  lemma GrowExtOwn(L: Layout, e: int)
    requires OwnOK(L) && e !in L.own
    ensures OwnOK(GrowExt(L, e))
    ensures GrowExt(L, e).own.Keys == L.own.Keys + {e}
  {
    var L' := GrowExt(L, e);
    forall s | s in L'.own
      ensures match L'.own[s]
              case IsHeader => s == L'.header
              case IsData(i) => i < |L'.data| && L'.data[i] == s
              case IsExt(j) => j < |L'.exts| && L'.exts[j] == s
    {
      if s != e {
        assert s in L.own;
      }
    }
  }

  /**
    A file of `|L.data|` blocks whose last one was just appended: it is cached,
    and no byte has been put in it yet.
  */
  ghost predicate Grown(s: FS, L: Layout) {
    && VolOK(s.v) && OwnOK(L) && Placed(s.v, L)
    && |L.data| > 0
    && |L.exts| == Datablocks2Extblocks(|L.data|)
    && HdrOK(s.h.hdr, L) && SamePlace(s.v, s.h.hdr, L)
    && CachedExtOK(s.h, L)
    && (forall j :: 0 <= j < |L.exts| ==> IsCachedExt(s.h, L, j) || ExtOnDisk(s.v, L, j))
    && (forall i :: 0 <= i < |L.data| - 1 ==> DataOnDisk(s.v, L, i))
    && s.h.modeWrite
    && s.h.nDataBlock == |L.data|
    && s.h.curDataPtr == L.data[|L.data| - 1]
    && s.h.pos == s.h.hdr.byteSize == FFS_BLOCK * (|L.data| - 1)
    && ExtCursorOK(s.h, L)
  }

  /** The first bytes copied into an appended block make the file whole again. */
  lemma GrownCopyIn(s: FS, L: Layout, chunk: seq<byte>)
    requires Grown(s, L) && s.h.posInDataBlk == 0
    requires 0 < |chunk| <= FFS_BLOCK
    ensures Inv(CopyIn(s, chunk), L)
  {
    var t := CopyIn(s, chunk);
    assert forall k :: 0 <= k < 72 ==> Slot(t.h.hdr, k) == Slot(s.h.hdr, k);
    assert HdrOK(t.h.hdr, L);
    assert Ahead(t, L) by {
      forall j | 0 <= j < |L.exts| ensures IsCachedExt(t.h, L, j) || ExtOnDisk(t.v, L, j) {
        assert IsCachedExt(s.h, L, j) || ExtOnDisk(s.v, L, j);
      }
    }
  }

  /** At the end of a file whose last block is full, or of an empty file. */
  ghost predicate AtFullEnd(s: FS, L: Layout) {
    && Inv(s, L) && s.h.modeWrite
    && s.h.pos == s.h.hdr.byteSize && s.h.pos % FFS_BLOCK == 0
  }

  lemma FullEndFacts(s: FS, L: Layout)
    requires AtFullEnd(s, L)
    ensures s.h.nDataBlock == |L.data| && s.h.pos == FFS_BLOCK * |L.data|
    ensures |L.data| > 0 ==> s.h.curDataPtr == L.data[|L.data| - 1]
    ensures Base(s.v, s.h.hdr, L) && SamePlace(s.v, s.h.hdr, L) && CachedExtOK(s.h, L)
    ensures forall j :: 0 <= j < |L.exts| ==> IsCachedExt(s.h, L, j) || ExtOnDisk(s.v, L, j)
    ensures forall i :: 0 <= i < |L.data| - 1 ==> DataOnDisk(s.v, L, i)
    ensures ExtCursorOK(s.h, L)
  {
    var n := |L.data|;
    if n > 0 {
      assert s.h.pos == FFS_BLOCK * (s.h.nDataBlock - 1) + s.h.posInDataBlk;
      assert s.h.pos / FFS_BLOCK == n;
    }
  }

  /** `o` is the result of appending one data block, and `L'` the layout with it. */
  ghost predicate Appended(s: FS, L: Layout, o: Outcome, L': Layout) {
    && o.rc == RcOk
    && Grown(o.s, L')
    && |L'.data| == |L.data| + 1
    && L'.header == L.header
    && o.s.h.hdr.byteSize == s.h.hdr.byteSize
    && o.s.h.modeRead == s.h.modeRead
    && o.s.v.free <= s.v.free
    && L'.own.Keys == L.own.Keys + (s.v.free - o.s.v.free)
    && |o.s.v.free| + BlocksOf(|L'.data|) == |s.v.free| + BlocksOf(|L.data|)
    && SameOutside(s.v, o.s.v, L.own.Keys)
    && (forall i :: 0 <= i < |L.data| ==> DataOnDisk(o.s.v, L', i) && DiskBlock(o.s.v, L', i) == BlockBytes(s, L, i))
  }

  /**
    `s1` is the handle with the new block's slot set, and no data block written yet;
    then the full last block goes to the disk.
  */
  lemma AdvanceStep(s: FS, L: Layout, s1: FS, x: int)
    requires AtFullEnd(s, L)
    requires s1.h.data == s.h.data && s1.h.curDataPtr == s.h.curDataPtr && s1.h.pos == s.h.pos
    requires |s1.v.disk| == |s.v.disk| && s1.v.last == s.v.last
    requires forall i :: 0 <= i < |L.data| ==> s1.v.disk[L.data[i]] == s.v.disk[L.data[i]]
    ensures var t := Advance(s1, x);
            && t.h == s1.h.(data := t.h.data, curDataPtr := x, nDataBlock := s1.h.nDataBlock + 1)
            && t.v == s1.v.(disk := t.v.disk)
            && SameOutside(s1.v, t.v, if |L.data| > 0 then {s.h.curDataPtr} else {})
            && (forall i :: 0 <= i < |L.data| ==> DataOnDisk(t.v, L, i) && DiskBlock(t.v, L, i) == BlockBytes(s, L, i))
  {
    FullEndFacts(s, L);
    var t := Advance(s1, x);
    forall i | 0 <= i < |L.data| ensures DataOnDisk(t.v, L, i) && DiskBlock(t.v, L, i) == BlockBytes(s, L, i) {
      assert L.own[L.data[i]] == IsData(i);
      if i < |L.data| - 1 {
        assert DataOnDisk(s.v, L, i);
      }
    }
  }

  lemma GrownBlocks(s: FS, L: Layout, L': Layout, v: Vol)
    requires L.data <= L'.data
    requires forall i :: 0 <= i < |L.data| ==> DataOnDisk(v, L, i) && DiskBlock(v, L, i) == BlockBytes(s, L, i)
    ensures forall i :: 0 <= i < |L.data| ==> DataOnDisk(v, L', i) && DiskBlock(v, L', i) == BlockBytes(s, L, i)
  {
    forall i | 0 <= i < |L.data| ensures DataOnDisk(v, L', i) && DiskBlock(v, L', i) == BlockBytes(s, L, i) {
      assert DataOnDisk(v, L, i);
    }
  }

  /** A write outside the header block leaves what the disk says about the place of the file. */
  lemma PlaceKept(v: Vol, v': Vol, hdr: Node, hdr': Node, L: Layout, keys: set<int>)
    requires SamePlace(v, hdr, L) && SameOutside(v, v', keys) && L.header !in keys
    requires hdr'.name == hdr.name && hdr'.parent == hdr.parent && hdr'.nextSameHash == hdr.nextSameHash
    ensures SamePlace(v', hdr', L)
  {
  }

  /** The header of a file is none of its other blocks. */
  lemma HeaderApart(L: Layout)
    requires OwnOK(L)
    ensures forall i :: 0 <= i < |L.data| ==> L.data[i] != L.header
    ensures forall j :: 0 <= j < |L.exts| ==> L.exts[j] != L.header
  {
  }

  /** A volume that differs from `v` in a block or two of the file, and in the taken sector. */
  ghost predicate TookOne(v: Vol, v': Vol, L: Layout, x: int) {
    && SameOutside(v, v', L.own.Keys)
    && x in v.free && v'.free == v.free - {x}
  }

  lemma TakenPlaced(v: Vol, v': Vol, L: Layout, L': Layout, x: int)
    requires VolOK(v) && Placed(v, L) && TookOne(v, v', L, x)
    requires L'.own.Keys == L.own.Keys + {x}
    ensures VolOK(v') && Placed(v', L')
    ensures v.free - v'.free == {x} && |v'.free| == |v.free| - 1
  {
  }

  function HdrWith(hdr: Node, n: nat, x: int): Node
    requires n < 72
  {
    SetSlot(hdr, n, x).(firstData := if n == 0 then x else hdr.firstData, highSeq := hdr.highSeq + 1)
  }

  lemma HdrWithOK(hdr: Node, L: Layout, x: int)
    requires HdrOK(hdr, L) && |L.data| < MAX_DATABLK
    ensures HdrOK(HdrWith(hdr, |L.data|, x), GrowData(L, x))
  {
    var h' := HdrWith(hdr, |L.data|, x);
    assert forall k :: 0 <= k < 72 ==> Slot(h', k) == (if k == |L.data| then x else Slot(hdr, k));
  }

  lemma AppendToHdrFacts(s: FS, L: Layout, x: int, t: FS)
    requires AtFullEnd(s, L) && |L.data| < MAX_DATABLK
    requires TookOne(s.v, t.v, L, x)
    requires t.h == s.h.(hdr := HdrWith(s.h.hdr, |L.data|, x), data := t.h.data, curDataPtr := x,
                         nDataBlock := |L.data| + 1)
    requires forall i :: 0 <= i < |L.data| ==> DataOnDisk(t.v, L, i) && DiskBlock(t.v, L, i) == BlockBytes(s, L, i)
    requires SamePlace(t.v, t.h.hdr, L)
    ensures Appended(s, L, Outcome(t, RcOk), GrowData(L, x))
  {
    FullEndFacts(s, L);
    var L' := GrowData(L, x);
    GrowDataOwn(L, x);
    TakenPlaced(s.v, t.v, L, L', x);
    GrownBlocks(s, L, L', t.v);
    HdrWithOK(s.h.hdr, L, x);
    assert L.exts == [];
  }

  lemma AppendToHdrStep(s: FS, L: Layout) returns (L': Layout)
    requires AtFullEnd(s, L) && |L.data| < MAX_DATABLK && s.v.free != {}
    ensures Appended(s, L, CreateNextBlock(s), L')
  {
    FullEndFacts(s, L);
    var x := FirstFree(s.v);
    L' := GrowData(L, x);
    var s1 := FS(Take(s.v, x), s.h.(hdr := HdrWith(s.h.hdr, |L.data|, x)));
    assert CreateNextBlock(s) == Outcome(Advance(s1, x), RcOk);
    AdvanceStep(s, L, s1, x);
    HeaderApart(L);
    PlaceKept(s.v, Advance(s1, x).v, s.h.hdr, s1.h.hdr, L, if |L.data| > 0 then {s.h.curDataPtr} else {});
    AppendToHdrFacts(s, L, x, Advance(s1, x));
  }

  /* ---- appending beyond the header ---- */

  /** A full extension block with a successor stays right when the file grows. */
  lemma ExtStable(x: Node, L: Layout, L': Layout, j: int)
    requires ExtOK(x, L, j) && 0 <= j && j + 1 < |L.exts|
    requires MAX_DATABLK * (j + 2) <= |L.data|
    requires L.data <= L'.data && L.exts <= L'.exts && L'.header == L.header
    ensures ExtOK(x, L', j)
  {
    assert forall k :: 0 <= k < |L.data| ==> PtrOrZero(L'.data, k) == L.data[k];
    assert forall k :: 0 <= k < |L.exts| ==> PtrOrZero(L'.exts, k) == L.exts[k];
  }

  lemma HdrStable(hdr: Node, L: Layout, L': Layout)
    requires HdrOK(hdr, L) && |L.data| >= MAX_DATABLK && L.exts != []
    requires L.data <= L'.data && L.exts <= L'.exts && L'.header == L.header
    ensures HdrOK(hdr, L')
  {
    assert forall k :: 0 <= k < |L.data| ==> PtrOrZero(L'.data, k) == L.data[k];
    assert forall k :: 0 <= k < |L.exts| ==> PtrOrZero(L'.exts, k) == L.exts[k];
  }

  function ExtWith(x: Node, k: int, d: int): Node
    requires 0 <= k < 72
  {
    SetSlot(x, k, d).(highSeq := x.highSeq + 1)
  }

  /** The next free slot of the last extension block takes the new data block. */
  lemma ExtWithOK(x: Node, L: Layout, d: int, j: int, k: int)
    requires ExtOK(x, L, j) && 0 <= j == |L.exts| - 1
    requires 0 <= k < MAX_DATABLK && |L.data| == MAX_DATABLK * (j + 1) + k
    ensures ExtOK(ExtWith(x, k, d), GrowData(L, d), j)
  {
    var y, L' := ExtWith(x, k, d), GrowData(L, d);
    forall m | 0 <= m < 72 ensures Slot(y, m) == PtrOrZero(L'.data, MAX_DATABLK * (j + 1) + m) {
      assert Slot(y, m) == (if m == k then d else Slot(x, m));
    }
  }

  lemma AppendToExtFacts(s: FS, L: Layout, x: int, j: int, k: int, t: FS)
    requires AtFullEnd(s, L)
    requires 0 <= j == |L.exts| - 1 && 0 < k < MAX_DATABLK && |L.data| == MAX_DATABLK * (j + 1) + k
    requires TookOne(s.v, t.v, L, x)
    requires s.h.ext.Some?
    requires t.h == s.h.(ext := Some(ExtWith(s.h.ext.value, k, x)), posInExtBlk := k + 1,
                         data := t.h.data, curDataPtr := x, nDataBlock := |L.data| + 1)
    requires forall i :: 0 <= i < |L.exts| - 1 ==> t.v.disk[L.exts[i]] == s.v.disk[L.exts[i]]
    requires forall i :: 0 <= i < |L.data| ==> DataOnDisk(t.v, L, i) && DiskBlock(t.v, L, i) == BlockBytes(s, L, i)
    requires SamePlace(t.v, t.h.hdr, L)
    ensures Appended(s, L, Outcome(t, RcOk), GrowData(L, x))
  {
    hide Inv, AtFullEnd, HdrOK, ExtOK, OwnOK, Placed, DataOnDisk, DiskBlock, BlockBytes, ExtOnDisk, VolOK, ExtWith;
    FullEndFacts(s, L);
    FullEndBase(s, L);
    var L' := GrowData(L, x);
    GrowDataOwn(L, x);
    TakenPlaced(s.v, t.v, L, L', x);
    GrownBlocks(s, L, L', t.v);
    HdrStable(s.h.hdr, L, L');
    LastExtCached(s, L, j, k);
    ExtWithOK(s.h.ext.value, L, x, j, k);
    forall i | 0 <= i < |L'.exts| ensures IsCachedExt(t.h, L', i) || ExtOnDisk(t.v, L', i) {
      ExtWithKey(s.h.ext.value, k, x);
      if i < j {
        EarlierExt(s, L, x, j, i, t.v);
      }
    }
    LastOwn(L', j);
    ExtPlace(|L.data|, j, k);
    MoreBlocks(|L.data|, j, k);
  }

  lemma FullEndBase(s: FS, L: Layout)
    requires AtFullEnd(s, L)
    ensures OwnOK(L) && Placed(s.v, L) && VolOK(s.v) && HdrOK(s.h.hdr, L) && |L.exts| == Datablocks2Extblocks(|L.data|)
    ensures s.h.modeWrite && s.h.pos == s.h.hdr.byteSize
  {
  }

  /** The last extension block is the cached one. */
  lemma LastExtCached(s: FS, L: Layout, j: int, k: int)
    requires AtFullEnd(s, L)
    requires 0 <= j == |L.exts| - 1 && 0 < k < MAX_DATABLK && |L.data| == MAX_DATABLK * (j + 1) + k
    ensures s.h.ext.Some? && s.h.ext.value.headerKey == L.exts[j] && ExtOK(s.h.ext.value, L, j)
    ensures s.h.posInExtBlk == k
  {
    FullEndFacts(s, L);
    assert (|L.data| - 1) / MAX_DATABLK == j + 1;
    assert L.own[L.exts[j]] == IsExt(j);
  }

  lemma ExtWithKey(x: Node, k: int, d: int)
    requires 0 <= k < 72
    ensures ExtWith(x, k, d).headerKey == x.headerKey
  {
  }

  /** An extension block before the last one, on the disk, stays right. */
  lemma EarlierExt(s: FS, L: Layout, x: int, j: int, i: int, v: Vol)
    requires AtFullEnd(s, L) && 0 <= i < j == |L.exts| - 1 && |L.data| > MAX_DATABLK * (j + 1)
    requires s.h.ext.Some? && s.h.ext.value.headerKey == L.exts[j]
    requires |v.disk| == |s.v.disk| && v.last == s.v.last
    requires OnDisk(s.v, L.exts[i]) && v.disk[L.exts[i]] == s.v.disk[L.exts[i]]
    ensures ExtOnDisk(v, GrowData(L, x), i)
  {
    FullEndFacts(s, L);
    hide AtFullEnd, Inv;
    var L' := GrowData(L, x);
    assert L.own[L.exts[i]] == IsExt(i) && L.own[L.exts[j]] == IsExt(j);
    assert ExtOnDisk(s.v, L, i);
    ExtStable(s.v.disk[L.exts[i]].node, L, L', i);
  }

  lemma LastOwn(L: Layout, j: int)
    requires OwnOK(L) && 0 <= j < |L.exts|
    ensures L.exts[j] in L.own && L.own[L.exts[j]] == IsExt(j)
  {
  }

  lemma ExtPlace(n: int, j: int, k: int)
    requires n == MAX_DATABLK * (j + 1) + k && 0 <= j && 0 < k < MAX_DATABLK
    ensures n / MAX_DATABLK - 1 == j && n % MAX_DATABLK + 1 == k + 1
  {
  }

  lemma MoreBlocks(n: nat, j: int, k: int)
    requires n == MAX_DATABLK * (j + 1) + k && 0 <= j && 0 < k < MAX_DATABLK
    ensures BlocksOf(n + 1) == BlocksOf(n) + 1
    ensures Datablocks2Extblocks(n + 1) == Datablocks2Extblocks(n)
  {
  }

  lemma AppendToExtStep(s: FS, L: Layout) returns (L': Layout)
    requires AtFullEnd(s, L) && |L.data| > MAX_DATABLK && |L.data| % MAX_DATABLK != 0 && s.v.free != {}
    ensures Appended(s, L, CreateNextBlock(s), L')
  {
    hide Inv, AtFullEnd, HdrOK, ExtOK, Placed, DataOnDisk, DiskBlock, BlockBytes, ExtOnDisk, Advance, Appended, FreeInOrder;
    FullEndFacts(s, L);
    FullEndBase(s, L);
    var n := |L.data|;
    var j, k := n / MAX_DATABLK - 1, n % MAX_DATABLK;
    assert (n - 1) / MAX_DATABLK == n / MAX_DATABLK && (n - 1) % MAX_DATABLK + 1 == k;
    LastExtCached(s, L, j, k);
    var x := FirstFree(s.v);
    L' := GrowData(L, x);
    var s1 := FS(Take(s.v, x), s.h.(ext := Some(ExtWith(s.h.ext.value, k, x)), posInExtBlk := k + 1));
    assert CreateNextBlock(s) == Outcome(Advance(s1, x), RcOk);
    AdvanceStep(s, L, s1, x);
    var t := Advance(s1, x);
    forall i | 0 <= i < |L.exts| - 1 ensures t.v.disk[L.exts[i]] == s.v.disk[L.exts[i]] {
      assert L.own[L.exts[i]] == IsExt(i);
    }
    HeaderApart(L);
    PlaceKept(s.v, t.v, s.h.hdr, t.h.hdr, L, {s.h.curDataPtr});
    AppendToExtFacts(s, L, x, j, k, t);
  }

  /* ---- appending with a new extension block ---- */

  function LinkedHdr(hdr: Node, n: nat, e: int): Node {
    if n == MAX_DATABLK then hdr.(extension := e) else hdr
  }

  function LinkedExt(x: Node, e: int): Node {
    SealExt(x.(extension := e))
  }

  lemma LinkedHdrOK(hdr: Node, L: Layout, e: int, x: int)
    requires HdrOK(hdr, L) && |L.data| >= MAX_DATABLK
    requires |L.data| == MAX_DATABLK <==> L.exts == []
    ensures HdrOK(LinkedHdr(hdr, |L.data|, e), GrowData(GrowExt(L, e), x))
  {
    var h', L' := LinkedHdr(hdr, |L.data|, e), GrowData(GrowExt(L, e), x);
    assert forall k :: 0 <= k < 72 ==> Slot(h', k) == Slot(hdr, k);
    assert forall k :: 0 <= k < |L.data| ==> PtrOrZero(L'.data, k) == L.data[k];
    assert forall k :: 0 <= k < |L.exts| ==> PtrOrZero(L'.exts, k) == L.exts[k];
  }

  lemma LinkedExtOK(y: Node, L: Layout, e: int, x: int, j: int)
    requires ExtOK(y, L, j) && 0 <= j == |L.exts| - 1
    requires |L.data| == MAX_DATABLK * (j + 2)
    ensures ExtOK(LinkedExt(y, e), GrowData(GrowExt(L, e), x), j)
  {
    var y', L' := LinkedExt(y, e), GrowData(GrowExt(L, e), x);
    assert forall k :: 0 <= k < 72 ==> Slot(y', k) == Slot(y, k);
    assert forall k :: 0 <= k < |L.data| ==> PtrOrZero(L'.data, k) == L.data[k];
    assert forall k :: 0 <= k < |L.exts| ==> PtrOrZero(L'.exts, k) == L.exts[k];
  }

  lemma FirstExtOK(L: Layout, e: int, x: int)
    requires |L.data| == MAX_DATABLK * (|L.exts| + 1)
    ensures ExtOK(ExtWith(NewExt(e, L.header), 0, x), GrowData(GrowExt(L, e), x), |L.exts|)
  {
    var y, L' := ExtWith(NewExt(e, L.header), 0, x), GrowData(GrowExt(L, e), x);
    forall k | 0 <= k < 72 ensures Slot(y, k) == PtrOrZero(L'.data, |L.data| + k) {
      assert Slot(y, k) == (if k == 0 then x else 0);
    }
  }

  /** The extension blocks of the grown file: the new one cached, the one before it written, the others as before. */
  lemma NewExtChain(s: FS, L: Layout, e: int, x: int, t: FS)
    requires AtFullEnd(s, L)
    requires |L.data| == MAX_DATABLK * (|L.exts| + 1)
    requires t.h.ext == Some(ExtWith(NewExt(e, L.header), 0, x))
    requires |t.v.disk| == |s.v.disk| && t.v.last == s.v.last
    requires L.exts != [] ==>
               && s.h.ext.Some?
               && t.v.disk[L.exts[|L.exts| - 1]] == Meta(LinkedExt(s.h.ext.value, e))
    requires forall i :: 0 <= i < |L.exts| - 1 ==> t.v.disk[L.exts[i]] == s.v.disk[L.exts[i]]
    ensures var L' := GrowData(GrowExt(L, e), x);
            forall i :: 0 <= i < |L'.exts| ==> IsCachedExt(t.h, L', i) || ExtOnDisk(t.v, L', i)
  {
    FullEndFacts(s, L);
    var L' := GrowData(GrowExt(L, e), x);
    var last := |L.exts| - 1;
    forall i | 0 <= i < |L'.exts| ensures IsCachedExt(t.h, L', i) || ExtOnDisk(t.v, L', i) {
      if i < last {
        assert L.own[L.exts[i]] == IsExt(i);
        assert (|L.data| - 1) / MAX_DATABLK == last + 1;
        assert L.own[L.exts[last]] == IsExt(last);
        assert ExtOnDisk(s.v, L, i);
        ExtStable(s.v.disk[L.exts[i]].node, L, L', i);
      } else if i == last {
        assert L.own[L.exts[last]] == IsExt(last);
        assert (|L.data| - 1) / MAX_DATABLK == last + 1;
        LinkedExtOK(s.h.ext.value, L, e, x, last);
      }
    }
  }

  ghost predicate TookTwo(v: Vol, v': Vol, L: Layout, e: int, x: int) {
    && SameOutside(v, v', L.own.Keys)
    && e in v.free && x in v.free && e != x && v'.free == v.free - {e} - {x}
  }

  lemma NewExtOwn(v: Vol, v': Vol, L: Layout, e: int, x: int)
    requires VolOK(v) && OwnOK(L) && Placed(v, L) && TookTwo(v, v', L, e, x)
    ensures var L' := GrowData(GrowExt(L, e), x);
            && OwnOK(L') && VolOK(v') && Placed(v', L')
            && L'.own.Keys == L.own.Keys + (v.free - v'.free)
    ensures v'.free <= v.free && |v'.free| == |v.free| - 2
  {
    GrowExtOwn(L, e);
    GrowDataOwn(GrowExt(L, e), x);
    assert v.free - v'.free == {e, x};
    assert v'.free == v.free - {e, x};
  }

  lemma NewExtFacts(s: FS, L: Layout, e: int, x: int, t: FS)
    requires AtFullEnd(s, L)
    requires |L.data| == MAX_DATABLK * (|L.exts| + 1)
    requires TookTwo(s.v, t.v, L, e, x)
    requires t.h == s.h.(hdr := LinkedHdr(s.h.hdr, |L.data|, e),
                         ext := Some(ExtWith(NewExt(e, L.header), 0, x)), posInExtBlk := 1,
                         data := t.h.data, curDataPtr := x, nDataBlock := |L.data| + 1)
    requires var L' := GrowData(GrowExt(L, e), x);
             forall i :: 0 <= i < |L'.exts| ==> IsCachedExt(t.h, L', i) || ExtOnDisk(t.v, L', i)
    requires forall i :: 0 <= i < |L.data| ==> DataOnDisk(t.v, L, i) && DiskBlock(t.v, L, i) == BlockBytes(s, L, i)
    requires SamePlace(t.v, t.h.hdr, L)
    ensures Appended(s, L, Outcome(t, RcOk), GrowData(GrowExt(L, e), x))
  {
    hide Inv, AtFullEnd, HdrOK, ExtOK, OwnOK, Placed, DataOnDisk, DiskBlock, BlockBytes, ExtOnDisk, VolOK, ExtWith, NewExt;
    FullEndFacts(s, L);
    FullEndBase(s, L);
    var L' := GrowData(GrowExt(L, e), x);
    NewExtOwn(s.v, t.v, L, e, x);
    GrownBlocks(s, L, L', t.v);
    LinkedHdrOK(s.h.hdr, L, e, x);
    FirstExtOK(L, e, x);
    ExtWithKey(NewExt(e, L.header), 0, x);
    NewExtKey(e, L.header);
    LastOwn(L', |L.exts|);
    LinkedHdrKeeps(s.h.hdr, |L.data|, e);
    assert |L.data| / MAX_DATABLK == |L.exts| + 1 && |L.data| % MAX_DATABLK == 0;
    assert Datablocks2Extblocks(|L.data| + 1) == |L.exts| + 1;
  }

  lemma NewExtKey(e: int, parent: int)
    ensures NewExt(e, parent).headerKey == e
  {
  }

  lemma LinkedHdrKeeps(hdr: Node, n: nat, e: int)
    ensures var x := LinkedHdr(hdr, n, e);
            x.byteSize == hdr.byteSize && x.name == hdr.name && x.parent == hdr.parent && x.nextSameHash == hdr.nextSameHash
  {
  }

  lemma LinkExtStep(s: FS, L: Layout, e: int)
    requires AtFullEnd(s, L) && e in s.v.free
    requires |L.data| == MAX_DATABLK * (|L.exts| + 1)
    ensures var t := LinkExt(FS(Take(s.v, e), s.h), e);
            && t.h == s.h.(hdr := LinkedHdr(s.h.hdr, |L.data|, e), ext := Some(NewExt(e, L.header)), posInExtBlk := 0)
            && VolOK(t.v) && t.v.free == s.v.free - {e}
            && SameOutside(s.v, t.v, if L.exts != [] then {L.exts[|L.exts| - 1]} else {})
            && (L.exts != [] ==>
                  && s.h.ext.Some?
                  && t.v.disk[L.exts[|L.exts| - 1]] == Meta(LinkedExt(s.h.ext.value, e)))
  {
    FullEndFacts(s, L);
    if L.exts != [] {
      var last := |L.exts| - 1;
      assert (|L.data| - 1) / MAX_DATABLK == last + 1;
      assert L.own[L.exts[last]] == IsExt(last);
    }
  }

  lemma AppendWithNewExt(s: FS, L: Layout) returns (L': Layout)
    requires AtFullEnd(s, L) && |L.data| == MAX_DATABLK * (|L.exts| + 1) && |s.v.free| >= 2
    ensures Appended(s, L, CreateNextBlock(s), L')
  {
    hide Inv, AtFullEnd, HdrOK, ExtOK, Placed, DataOnDisk, DiskBlock, BlockBytes, ExtOnDisk, LinkExt, Advance, CreateNextBlock,
         Appended, ExtWith, NewExt, LinkedExt, FreeInOrder;
    FullEndFacts(s, L);
    FullEndBase(s, L);
    var e := FirstFree(s.v);
    LinkExtStep(s, L, e);
    var s0 := LinkExt(FS(Take(s.v, e), s.h), e);
    assert |s0.v.free| == |s.v.free| - 1;
    var x := FirstFree(s0.v);
    L' := GrowData(GrowExt(L, e), x);
    var s1 := FS(Take(s0.v, x), s0.h.(ext := Some(ExtWith(NewExt(e, L.header), 0, x)), posInExtBlk := 1));
    CreateWithNewExt(s, L, e, x, s0, s1);
    forall i | 0 <= i < |L.data| ensures s1.v.disk[L.data[i]] == s.v.disk[L.data[i]] {
      assert L.own[L.data[i]] == IsData(i);
    }
    AdvanceStep(s, L, s1, x);
    var t := Advance(s1, x);
    forall i | 0 <= i < |L.exts| ensures t.v.disk[L.exts[i]] == s1.v.disk[L.exts[i]] {
      assert L.own[L.exts[i]] == IsExt(i);
    }
    forall i | 0 <= i < |L.exts| - 1 ensures t.v.disk[L.exts[i]] == s.v.disk[L.exts[i]] {
      assert L.own[L.exts[i]] == IsExt(i);
    }
    NewExtChain(s, L, e, x, t);
    HeaderApart(L);
    PlaceKept(s.v, s0.v, s.h.hdr, s.h.hdr, L, if L.exts != [] then {L.exts[|L.exts| - 1]} else {});
    LinkedHdrKeeps(s.h.hdr, |L.data|, e);
    PlaceKept(s0.v, t.v, s.h.hdr, t.h.hdr, L, {s.h.curDataPtr});
    NewExtFacts(s, L, e, x, t);
  }

  lemma CreateWithNewExt(s: FS, L: Layout, e: int, x: int, s0: FS, s1: FS)
    requires VolOK(s.v) && VolOK(s0.v) && s.h.nDataBlock == MAX_DATABLK * (|L.exts| + 1)
    requires e == FirstFree(s.v) != -1 && s0 == LinkExt(FS(Take(s.v, e), s.h), e)
    requires s0.h.ext == Some(NewExt(e, L.header)) && s0.h.posInExtBlk == 0
    requires x == FirstFree(s0.v) != -1
    requires s1 == FS(Take(s0.v, x), s0.h.(ext := Some(ExtWith(NewExt(e, L.header), 0, x)), posInExtBlk := 1))
    ensures CreateNextBlock(s) == Outcome(Advance(s1, x), RcOk)
  {
    hide LinkExt, Advance, NewExt, FirstFree;
    LinkExtVolOK(s, e);
    assert CreateNextBlock(s) == AppendToExt(s0);
  }

  /** How many sectors appending a data block to a file of `n` takes. */
  function AppendCost(n: nat): nat {
    BlocksOf(n + 1) - BlocksOf(n)
  }

  /** With enough free sectors a data block is appended. */
  lemma CreateStep(s: FS, L: Layout) returns (L': Layout)
    requires AtFullEnd(s, L) && |s.v.free| >= AppendCost(|L.data|)
    ensures Appended(s, L, CreateNextBlock(s), L')
  {
    FullEndFacts(s, L);
    if |L.data| < MAX_DATABLK {
      L' := AppendToHdrStep(s, L);
    } else if |L.data| % MAX_DATABLK != 0 {
      L' := AppendToExtStep(s, L);
    } else {
      L' := AppendWithNewExt(s, L);
    }
  }

  /** Without them the append is refused. */
  lemma CreateRefused(s: FS, L: Layout)
    requires AtFullEnd(s, L) && |s.v.free| < AppendCost(|L.data|)
    ensures CreateNextBlock(s).rc == RcVolFull
  {
    hide Inv, AtFullEnd, HdrOK, ExtOK, Placed, DataOnDisk, ExtOnDisk, Advance, FreeInOrder, LinkedExt, LinkedHdr, NewExt, LinkExt;
    FullEndFacts(s, L);
    FullEndBase(s, L);
    var n := |L.data|;
    if n >= MAX_DATABLK && n % MAX_DATABLK == 0 && s.v.free != {} {
      var e := FirstFree(s.v);
      LinkExtStep(s, L, e);
      assert |s.v.free - {e}| == |s.v.free| - 1;
    }
  }
}
