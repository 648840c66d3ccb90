/**
  Shrinking an open file: exactly when the handle is whole afterwards, and that the
  file then holds the first bytes of what it held.
*/
module FileShrink {
  import opened FileUtil
  import opened Blocks
  import opened FileSpec
  import opened FileInv
  import opened FileSteps
  import opened FileSeek
  import opened FileBlocks
  import opened TruncateSpec
  import opened FileTruncate

  /* ---- where the seek leaves the handle ---- */

  /** A seek inside the file that does not return at once lands left of the right end of its block. */
  lemma SeekLandsInside(s: FS, L: Layout, p: nat)
    requires Inv(s, L) && p < s.h.hdr.byteSize && !(s.h.pos == p && s.h.curDataPtr != 0)
    ensures Seek(s, p).s.h.posInDataBlk < FFS_BLOCK
  {
    if s.h.curDataPtr == 0 || s.h.nDataBlock - 1 != p / FFS_BLOCK {
      SeekByLoading(s, L, p);
    }
  }

  lemma SeekByLoading(s: FS, L: Layout, p: nat)
    requires Inv(s, L) && p < s.h.hdr.byteSize
    requires s.h.curDataPtr == 0 || (s.h.pos != p && s.h.nDataBlock - 1 != p / FFS_BLOCK)
    ensures var s1 := FlushIfChanged(s);
            && Seek(s, p) == (if p == 0 then SeekStart(s1) else SeekExt(s1, p))
            && Arrived(s1, Seek(s, p), L, p) && Seek(s, p).s.h.posInDataBlk < FFS_BLOCK
            && AtRest(s1, L)
  {
    FlushIfChangedStep(s, L);
    SeekDispatch(s, p);
    hide Seek, SeekStart, SeekExt, FlushIfChanged, Inv, AtRest;
    SeekBeforeEnd(FlushIfChanged(s), L, p);
  }

  lemma SeekDispatch(s: FS, p: nat)
    requires s.h.curDataPtr == 0 || (s.h.pos != p && (s.h.nDataBlock == 0 || s.h.nDataBlock - 1 != p / FFS_BLOCK))
    requires s.h.curDataPtr != 0 ==> s.h.nDataBlock != 0
    ensures var s1 := FlushIfChanged(s);
            Seek(s, p) == if p == 0 then SeekStart(s1) else SeekExt(s1, p)
  {
    hide SeekStart, SeekExt, FlushIfChanged;
  }

  /** A seek into the blocks the header lists neither fetches nor drops an extension block. */
  lemma SeekKeepsExt(s: FS, L: Layout, p: nat)
    requires Inv(s, L) && p < s.h.hdr.byteSize && p / FFS_BLOCK < MAX_DATABLK
    ensures Seek(s, p).s.h.ext.Some? <==> s.h.ext.Some?
    ensures s.h.ext.Some? ==> Seek(s, p).s.h.ext.value.headerKey == s.h.ext.value.headerKey
  {
    if s.h.curDataPtr == 0 || (s.h.pos != p && s.h.nDataBlock - 1 != p / FFS_BLOCK) {
      SeekByLoading(s, L, p);
      FlushIfChangedStep(s, L);
      var s1 := FlushIfChanged(s);
      LoadKeepsExt(s1, L, p);
    }
  }

  lemma LoadKeepsExt(s: FS, L: Layout, p: nat)
    requires p < s.h.hdr.byteSize && p / FFS_BLOCK < MAX_DATABLK
    ensures (if p == 0 then SeekStart(s) else SeekExt(s, p)).s.h.ext == s.h.ext
  {
    PosInBlock(p);
    hide Pos2DataBlock;
  }

  /* ---- the smaller layout ---- */

  predicate Kept(r: Role, n': nat, e': nat) {
    match r
    case IsHeader => true
    case IsData(i) => i < n'
    case IsExt(j) => j < e'
  }

  /** The layout cut down to `n'` data blocks. */
  function CutLayout(L: Layout, n': nat): Layout
    requires n' <= |L.data| && Datablocks2Extblocks(n') <= |L.exts|
  {
    var e' := Datablocks2Extblocks(n');
    Layout(L.header, L.data[..n'], L.exts[..e'], map s | s in L.own && Kept(L.own[s], n', e') :: L.own[s])
  }

  lemma CutOwn(L: Layout, n': nat)
    requires OwnOK(L) && n' <= |L.data| && Datablocks2Extblocks(n') <= |L.exts|
    ensures OwnOK(CutLayout(L, n'))
  {
    var L' := CutLayout(L, n');
    var e' := Datablocks2Extblocks(n');
    forall i | 0 <= i < n' ensures L'.data[i] in L'.own && L'.own[L'.data[i]] == IsData(i) {
      var x := L.data[i];
      assert x in L.own && L.own[x] == IsData(i) && L'.data[i] == x;
    }
    forall j | 0 <= j < e' ensures L'.exts[j] in L'.own && L'.own[L'.exts[j]] == IsExt(j) {
      var x := L.exts[j];
      assert x in L.own && L.own[x] == IsExt(j) && L'.exts[j] == x;
    }
    forall s | s in L'.own
      ensures match L'.own[s]
              case IsHeader => s == L'.header
              case IsData(i) => i < |L'.data| && L'.data[i] == s
              case IsExt(j) => j < |L'.exts| && L'.exts[j] == s
    {
      assert s in L.own;
    }
  }

  lemma LostSector(L: Layout, n': nat, x: int)
    requires OwnOK(L) && n' <= |L.data| && Datablocks2Extblocks(n') <= |L.exts|
    ensures (x in L.data[n'..] || x in L.exts[Datablocks2Extblocks(n')..]) <==>
            (x in L.own && !Kept(L.own[x], n', Datablocks2Extblocks(n')))
  {
    var e' := Datablocks2Extblocks(n');
    if x in L.data[n'..] {
      var i :| 0 <= i < |L.data| - n' && L.data[n'..][i] == x;
      assert L.own[L.data[n' + i]] == IsData(n' + i);
    }
    if x in L.exts[e'..] {
      var j :| 0 <= j < |L.exts| - e' && L.exts[e'..][j] == x;
      assert L.own[L.exts[e' + j]] == IsExt(e' + j);
    }
    if x in L.own && !Kept(L.own[x], n', e') {
      match L.own[x]
      case IsData(i) => assert L.data[n'..][i - n'] == x;
      case IsExt(j) => assert L.exts[e'..][j - e'] == x;
    }
  }

  lemma ExtsShrink(n': nat, n: nat)
    requires n' <= n
    ensures Datablocks2Extblocks(n') <= Datablocks2Extblocks(n)
  {
  }

  /** The list holds the sectors the layout loses, and no other. */
  lemma RemovedSectors(L: Layout, n': nat)
    requires OwnOK(L) && n' <= |L.data| && |L.exts| == Datablocks2Extblocks(|L.data|)
    ensures Datablocks2Extblocks(n') <= |L.exts|
    ensures var L' := CutLayout(L, n');
            && Elements(RemovalOrder(L, n')) == L.own.Keys - L'.own.Keys
            && L'.own.Keys <= L.own.Keys
  {
    ExtsShrink(n', |L.data|);
    hide OwnOK, RemovalOrder, Kept, Datablocks2Extblocks;
    var L' := CutLayout(L, n');
    var list := RemovalOrder(L, n');
    forall x ensures x in Elements(list) <==> x in L.own.Keys - L'.own.Keys {
      InOrder(L, n', x);
      LostSector(L, n', x);
    }
  }

  lemma InOrder(L: Layout, n': nat, x: int)
    requires n' <= |L.data| && |L.exts| == Datablocks2Extblocks(|L.data|)
    ensures x in RemovalOrder(L, n') <==> x in L.data[n'..] || x in L.exts[Datablocks2Extblocks(n')..]
  {
    RemovalOrderExact(L, n');
    var list := RemovalOrder(L, n');
    hide RemovalOrder;
    assert x in list <==> x in multiset(list);
  }

  /** As many sectors are freed as the real sizes differ by. */
  lemma FreedCount(v: Vol, L: Layout, n': nat)
    requires OwnOK(L) && Placed(v, L) && n' <= |L.data| && |L.exts| == Datablocks2Extblocks(|L.data|)
    ensures var v' := Release(v, RemovalOrder(L, n'));
            |v'.free| + BlocksOf(n') == |v.free| + BlocksOf(|L.data|)
    ensures Placed(Release(v, RemovalOrder(L, n')), CutLayout(L, n'))
  {
    RemovedSectors(L, n');
    CutOwn(L, n');
    var L' := CutLayout(L, n');
    OwnCount(L);
    OwnCount(L');
    var gone := Elements(RemovalOrder(L, n'));
    hide RemovalOrder;
    assert L.own.Keys == L'.own.Keys + gone && gone !! L'.own.Keys;
    assert |L.own.Keys| == |L'.own.Keys| + |gone|;
    assert gone !! v.free by {
      assert forall s :: s in L.own.Keys ==> s !in v.free;
    }
  }

  /* ---- the cut tables ---- */

  lemma CutNumbers(n': nat, n: nat)
    requires 0 < n' <= n
    ensures var e, e' := Datablocks2Extblocks(n), Datablocks2Extblocks(n');
            && 0 < n' - MAX_DATABLK * e' <= 72
            && (if n' % MAX_DATABLK == 0 then n' - MAX_DATABLK * e' == 72 else n' % MAX_DATABLK == n' - MAX_DATABLK * e')
            && (e' == e && n % MAX_DATABLK == 0 ==> n - MAX_DATABLK * e' == 72)
            && (e' == e && n % MAX_DATABLK != 0 ==> n - MAX_DATABLK * e' == n % MAX_DATABLK)
  {
  }

  lemma CutTableSlots(x: Node, n': nat, n: nat, e': nat, e: nat)
    requires 0 < n' <= n && e' == Datablocks2Extblocks(n') && e == Datablocks2Extblocks(n)
    ensures var y := CutTable(x, n', n, e', e);
            var first := n' - MAX_DATABLK * e';
            var last := if e' < e then MAX_DATABLK else n - MAX_DATABLK * e';
            && 0 < first <= 72
            && y == x.(slots := y.slots, highSeq := if first < 72 then first else x.highSeq, extension := 0)
            && forall k {:trigger Slot(y, k)} :: 0 <= k < 72 ==>
                 Slot(y, k) == if first <= k <= last && first < 72 then 0 else Slot(x, k)
  {
    CutNumbers(n', n);
    ExtsShrink(n', n);
    hide Datablocks2Extblocks, ClearSlots;
    var first := n' - MAX_DATABLK * e';
    var y := CutTable(x, n', n, e', e);
    if first < 72 {
      var last := if e' < e || n % MAX_DATABLK == 0 then MAX_DATABLK - 1 else n % MAX_DATABLK;
      var z := ClearSlots(x, first, last + 1);
      assert y == z.(highSeq := first, extension := 0);
      forall k | 0 <= k < 72 ensures Slot(y, k) == (if first <= k <= last then 0 else Slot(x, k)) {
        assert Slot(z, k) == Slot(y, k);
      }
    } else {
      assert y == x.(extension := 0);
      assert forall k :: 0 <= k < 72 ==> Slot(y, k) == Slot(x, k);
    }
  }

  /* ---- the cut file ---- */

  lemma CutHdrOK(hdr: Node, L: Layout, n': nat, size': nat)
    requires HdrOK(hdr, L) && 0 < n' <= |L.data| && |L.exts| == Datablocks2Extblocks(|L.data|)
    requires Datablocks2Extblocks(n') == 0
    ensures HdrOK(CutTable(hdr.(byteSize := size'), n', |L.data|, 0, |L.exts|), CutLayout(L, n'))
  {
    var x := hdr.(byteSize := size');
    var L' := CutLayout(L, n');
    var y := CutTable(x, n', |L.data|, 0, |L.exts|);
    CutTableSlots(x, n', |L.data|, 0, |L.exts|);
    hide CutTable;
    forall k | 0 <= k < 72 ensures Slot(y, k) == PtrOrZero(L'.data, k) {
      assert Slot(x, k) == Slot(hdr, k);
    }
  }

  lemma UncutHdrOK(hdr: Node, L: Layout, n': nat, size': nat)
    requires HdrOK(hdr, L) && n' <= |L.data| && |L.exts| == Datablocks2Extblocks(|L.data|)
    requires 0 < Datablocks2Extblocks(n') <= |L.exts|
    ensures HdrOK(hdr.(byteSize := size'), CutLayout(L, n'))
  {
    var y := hdr.(byteSize := size');
    var L' := CutLayout(L, n');
    forall k | 0 <= k < 72 ensures Slot(y, k) == PtrOrZero(L'.data, k) {
      assert Slot(y, k) == Slot(hdr, k);
    }
  }

  lemma CutExtOK(x: Node, L: Layout, n': nat)
    requires n' <= |L.data| && |L.exts| == Datablocks2Extblocks(|L.data|)
    requires var e' := Datablocks2Extblocks(n'); 0 < e' <= |L.exts| && ExtOK(x, L, e' - 1)
    ensures var e' := Datablocks2Extblocks(n');
            ExtOK(CutTable(x, n', |L.data|, e', |L.exts|), CutLayout(L, n'), e' - 1)
  {
    var e' := Datablocks2Extblocks(n');
    var L' := CutLayout(L, n');
    var y := CutTable(x, n', |L.data|, e', |L.exts|);
    CutTableSlots(x, n', |L.data|, e', |L.exts|);
    hide CutTable;
    forall k | 0 <= k < 72 ensures Slot(y, k) == PtrOrZero(L'.data, MAX_DATABLK * e' + k) {
      assert Slot(x, k) == PtrOrZero(L.data, MAX_DATABLK * e' + k);
    }
  }

  lemma UncutExtOK(x: Node, L: Layout, n': nat, j: nat)
    requires n' <= |L.data| && |L.exts| == Datablocks2Extblocks(|L.data|)
    requires j + 1 < Datablocks2Extblocks(n') <= |L.exts| && ExtOK(x, L, j)
    ensures ExtOK(x, CutLayout(L, n'), j)
  {
    var L' := CutLayout(L, n');
    forall k | 0 <= k < 72 ensures Slot(x, k) == PtrOrZero(L'.data, MAX_DATABLK * (j + 1) + k) {
      assert Slot(x, k) == PtrOrZero(L.data, MAX_DATABLK * (j + 1) + k);
    }
  }

  /** Standing at the new end, in a block that is kept, with no extension block cached that is not. */
  ghost predicate ReadyToCut(t: FS, L: Layout, size': nat) {
    var n' := Size2Datablocks(size', FFS_BLOCK);
    && Inv(t, L) && t.h.modeWrite
    && 0 < size' < t.h.hdr.byteSize && t.h.pos == size'
    && 0 < n' <= |L.data| && t.h.nDataBlock == n'
    && (Datablocks2Extblocks(n') == 0 ==> t.h.ext.None?)
  }

  function Cut(t: FS, L: Layout, size': nat): FS
    requires Size2Datablocks(size', FFS_BLOCK) <= |L.data|
  {
    FS(Release(t.v, RemovalOrder(L, Size2Datablocks(size', FFS_BLOCK))), CutHandle(t.h, size'))
  }

  lemma NewSizeOK(size': nat)
    requires size' > 0
    ensures var n' := Size2Datablocks(size', FFS_BLOCK); n' > 0 && SizeOK(size', n')
  {
    var n' := Size2Datablocks(size', FFS_BLOCK);
    Size2DatablocksLeast(size', FFS_BLOCK, n');
    Size2DatablocksLeast(size', FFS_BLOCK, n' - 1);
  }

  lemma CutFacts(t: FS, L: Layout, size': nat)
    requires ReadyToCut(t, L, size')
    ensures var n' := Size2Datablocks(size', FFS_BLOCK);
            var e' := Datablocks2Extblocks(n');
            && Size2Datablocks(t.h.hdr.byteSize, FFS_BLOCK) == |L.data|
            && |L.exts| == Datablocks2Extblocks(|L.data|) && e' <= |L.exts|
            && OwnOK(L) && Placed(t.v, L) && VolOK(t.v) && HdrOK(t.h.hdr, L) && Base(t.v, t.h.hdr, L)
            && t.h.curDataPtr == L.data[n' - 1]
            && t.h.pos == FFS_BLOCK * (n' - 1) + t.h.posInDataBlk && t.h.posInDataBlk <= FFS_BLOCK
            && (e' > 0 ==>
                  && t.h.ext.Some? && t.h.ext.value.headerKey == L.exts[e' - 1]
                  && t.h.posInExtBlk == (n' - 1) % MAX_DATABLK + 1
                  && ExtOK(t.h.ext.value, L, e' - 1))
  {
    StoredSize(t.v, t.h.hdr, L);
    var n' := Size2Datablocks(size', FFS_BLOCK);
    var e' := Datablocks2Extblocks(n');
    ExtsShrink(n', |L.data|);
    if e' > 0 {
      assert (n' - 1) / MAX_DATABLK - 1 == e' - 1;
      assert L.own[L.exts[e' - 1]] == IsExt(e' - 1);
    }
  }

  lemma CutHandleIs(h: Handle, size': nat, n': nat, n: nat)
    requires size' > 0 && n' == Size2Datablocks(size', FFS_BLOCK) && n == Size2Datablocks(h.hdr.byteSize, FFS_BLOCK)
    requires Datablocks2Extblocks(n') > 0 ==> h.ext.Some?
    ensures var e, e' := Datablocks2Extblocks(n), Datablocks2Extblocks(n');
            var hdr := h.hdr.(byteSize := size');
            CutHandle(h, size') ==
            if e' == 0 then h.(hdr := CutTable(hdr, n', n, 0, e), changed := true)
            else h.(hdr := hdr, ext := Some(CutTable(h.ext.value, n', n, e', e)), changed := true)
  {
    hide CutTable, Size2Datablocks, Datablocks2Extblocks;
  }

  lemma CutTableKeeps(x: Node, n': nat, n: nat, e': nat, e: nat)
    ensures var y := CutTable(x, n', n, e', e);
            && y.byteSize == x.byteSize && y.headerKey == x.headerKey
            && y.name == x.name && y.parent == x.parent && y.nextSameHash == x.nextSameHash
  {
  }

  lemma CutKeepsPlace(h: Handle, size': nat)
    ensures var n, m := CutHandle(h, size').hdr, h.hdr;
            n.name == m.name && n.parent == m.parent && n.nextSameHash == m.nextSameHash
  {
    var n, n' := Size2Datablocks(h.hdr.byteSize, FFS_BLOCK), Size2Datablocks(size', FFS_BLOCK);
    hide CutTable, Size2Datablocks, Datablocks2Extblocks;
    CutTableKeeps(h.hdr.(byteSize := size'), n', n, Datablocks2Extblocks(n'), Datablocks2Extblocks(n));
  }

  /** The disk says the same about the place of the file after the cut. */
  lemma CutPlace(t: FS, L: Layout, size': nat)
    requires ReadyToCut(t, L, size')
    ensures Size2Datablocks(size', FFS_BLOCK) <= |L.data| && Datablocks2Extblocks(Size2Datablocks(size', FFS_BLOCK)) <= |L.exts|
    ensures var u := Cut(t, L, size');
            SamePlace(u.v, u.h.hdr, CutLayout(L, Size2Datablocks(size', FFS_BLOCK)))
  {
    CutKeepsPlace(t.h, size');
    CutFacts(t, L, size');
    hide CutHandle, RemovalOrder;
  }

  lemma CutVolOK(v: Vol, L: Layout, n': nat)
    requires VolOK(v) && OwnOK(L) && Placed(v, L) && n' <= |L.data| && |L.exts| == Datablocks2Extblocks(|L.data|)
    ensures VolOK(Release(v, RemovalOrder(L, n')))
  {
    RemovedSectors(L, n');
    hide RemovalOrder, CutLayout, OwnOK;
    var gone := Elements(RemovalOrder(L, n'));
    assert forall x :: x in gone ==> x in L.own.Keys;
  }

  lemma CutVol(t: FS, L: Layout, size': nat)
    requires ReadyToCut(t, L, size')
    ensures var u := Cut(t, L, size');
            var n' := Size2Datablocks(size', FFS_BLOCK);
            && Datablocks2Extblocks(n') <= |L.exts|
            && var L' := CutLayout(L, n');
               VolOK(u.v) && OwnOK(L') && Placed(u.v, L') && u.v == t.v.(free := u.v.free)
    ensures |Cut(t, L, size').v.free| + Size2Blocks(size', FFS_BLOCK) == |t.v.free| + Size2Blocks(t.h.hdr.byteSize, FFS_BLOCK)
  {
    CutFacts(t, L, size');
    var n' := Size2Datablocks(size', FFS_BLOCK);
    hide ReadyToCut, OwnOK, RemovalOrder, CutLayout, Stored, ExtOK, HdrOK, Size2Datablocks, Datablocks2Extblocks, CutHandle, VolOK;
    CutOwn(L, n');
    FreedCount(t.v, L, n');
    CutVolOK(t.v, L, n');
  }

  lemma CutHdr(t: FS, L: Layout, size': nat)
    requires ReadyToCut(t, L, size')
    ensures var u := Cut(t, L, size');
            var n' := Size2Datablocks(size', FFS_BLOCK);
            && Datablocks2Extblocks(n') <= |L.exts|
            && HdrOK(u.h.hdr, CutLayout(L, n')) && u.h.hdr.byteSize == size'
            && u.h == t.h.(hdr := u.h.hdr, ext := u.h.ext, changed := true)
            && (Datablocks2Extblocks(n') == 0 ==> u.h.ext.None?)
            && (Datablocks2Extblocks(n') > 0 ==>
                  && u.h.ext.Some? && u.h.ext.value.headerKey == L.exts[Datablocks2Extblocks(n') - 1]
                  && ExtOK(u.h.ext.value, CutLayout(L, n'), Datablocks2Extblocks(n') - 1))
  {
    CutFacts(t, L, size');
    var n' := Size2Datablocks(size', FFS_BLOCK);
    var n, e, e' := |L.data|, |L.exts|, Datablocks2Extblocks(n');
    assert Datablocks2Extblocks(n') == 0 ==> t.h.ext.None?;
    CutHandleIs(t.h, size', n', n);
    hide ReadyToCut, CutTable, HdrOK, OwnOK, RemovalOrder, CutLayout, Stored, ExtOK, Size2Datablocks, Datablocks2Extblocks, CutHandle;
    CutTableKeeps(t.h.hdr.(byteSize := size'), n', n, 0, e);
    if e' == 0 {
      CutHdrOK(t.h.hdr, L, n', size');
    } else {
      UncutHdrOK(t.h.hdr, L, n', size');
      CutExtOK(t.h.ext.value, L, n');
      CutTableKeeps(t.h.ext.value, n', n, e', e);
    }
  }

  /** The blocks that are kept, but the ones that stay cached, are on the disk. */
  lemma CutDisk(t: FS, L: Layout, size': nat, v: Vol)
    requires ReadyToCut(t, L, size') && v == t.v.(free := v.free)
    ensures var n' := Size2Datablocks(size', FFS_BLOCK);
            && n' <= |L.data| && Datablocks2Extblocks(n') <= |L.exts|
            && var L' := CutLayout(L, n');
               && (forall j :: 0 <= j < |L'.exts| - 1 ==> ExtOnDisk(v, L', j))
               && (forall i :: 0 <= i < n' - 1 ==> DataOnDisk(v, L', i))
               && (forall i :: 0 <= i < n' ==> DiskBlock(v, L', i) == DiskBlock(t.v, L, i))
  {
    CutFacts(t, L, size');
    var n' := Size2Datablocks(size', FFS_BLOCK);
    hide Size2Datablocks;
    var L' := CutLayout(L, n');
    forall j | 0 <= j < |L'.exts| - 1 ensures ExtOnDisk(v, L', j) {
      assert L.own[L.exts[j]] == IsExt(j) && L.own[L.exts[|L'.exts| - 1]] == IsExt(|L'.exts| - 1);
      assert ExtOnDisk(t.v, L, j);
      UncutExtOK(t.v.disk[L.exts[j]].node, L, n', j);
    }
    forall i | 0 <= i < n' - 1 ensures DataOnDisk(v, L', i) {
      assert DataOnDisk(t.v, L, i);
    }
  }

  /** After the cut the handle is whole, its last block counting as changed. */
  lemma CutIsOpen(t: FS, L: Layout, size': nat)
    requires ReadyToCut(t, L, size')
    ensures var n' := Size2Datablocks(size', FFS_BLOCK);
            && Datablocks2Extblocks(n') <= |L.exts|
            && Inv(Cut(t, L, size'), CutLayout(L, n'))
  {
    hide ReadyToCut, Cut, CutHandle, Size2Datablocks, RemovalOrder, Stored, HdrOK, ExtOK, OwnOK, VolOK, Inv, SizeOK, Placed,
         Datablocks2Extblocks, ExtOnDisk, DataOnDisk, SamePlace;
    CutReady(t, L, size');
    CutVol(t, L, size');
    CutHdr(t, L, size');
    CutFacts(t, L, size');
    NewSizeOK(size');
    var u := Cut(t, L, size');
    var n' := Size2Datablocks(size', FFS_BLOCK);
    var L' := CutLayout(L, n');
    CutDisk(t, L, size', u.v);
    CutPlace(t, L, size');
    CutAssembled(u, L', Datablocks2Extblocks(n'));
  }

  lemma CutReady(t: FS, L: Layout, size': nat)
    requires ReadyToCut(t, L, size')
    ensures t.h.modeWrite && t.h.nDataBlock == Size2Datablocks(size', FFS_BLOCK) && t.h.pos == size' > 0
    ensures 0 < Size2Datablocks(size', FFS_BLOCK) <= |L.data|
  {
  }

  lemma CutAssembled(u: FS, L': Layout, e': nat)
    requires VolOK(u.v) && OwnOK(L') && Placed(u.v, L') && HdrOK(u.h.hdr, L')
    requires SizeOK(u.h.hdr.byteSize, |L'.data|) && |L'.data| > 0
    requires e' == |L'.exts| == Datablocks2Extblocks(|L'.data|)
    requires forall j :: 0 <= j < e' - 1 ==> ExtOnDisk(u.v, L', j)
    requires forall i :: 0 <= i < |L'.data| - 1 ==> DataOnDisk(u.v, L', i)
    requires SamePlace(u.v, u.h.hdr, L')
    requires u.h.changed && u.h.modeWrite && u.h.nDataBlock == |L'.data|
    requires u.h.curDataPtr == L'.data[|L'.data| - 1]
    requires u.h.pos == u.h.hdr.byteSize == FFS_BLOCK * (|L'.data| - 1) + u.h.posInDataBlk && u.h.posInDataBlk <= FFS_BLOCK
    requires if e' == 0 then u.h.ext.None? else
               && u.h.ext.Some? && u.h.ext.value.headerKey == L'.exts[e' - 1] && ExtOK(u.h.ext.value, L', e' - 1)
               && u.h.posInExtBlk == (|L'.data| - 1) % MAX_DATABLK + 1
    ensures Inv(u, L')
  {
    if e' > 0 {
      assert L'.own[L'.exts[e' - 1]] == IsExt(e' - 1);
      assert (|L'.data| - 1) / MAX_DATABLK - 1 == e' - 1;
    }
  }

  lemma CutContent(t: FS, L: Layout, size': nat)
    requires ReadyToCut(t, L, size')
    ensures var n' := Size2Datablocks(size', FFS_BLOCK);
            && Datablocks2Extblocks(n') <= |L.exts|
            && size' <= |Content(t, L)|
            && Content(Cut(t, L, size'), CutLayout(L, n')) == Content(t, L)[..size']
  {
    hide Cut, CutHandle, Size2Datablocks, RemovalOrder, Stored, HdrOK, ExtOK, OwnOK, VolOK, CutLayout, DiskBlock, Inv, AtRest;
    CutVol(t, L, size');
    CutHdr(t, L, size');
    CutFacts(t, L, size');
    NewSizeOK(size');
    var u, n' := Cut(t, L, size'), Size2Datablocks(size', FFS_BLOCK);
    var L' := CutLayout(L, n');
    CutDisk(t, L, size', u.v);
    var c, c' := Content(t, L)[..size'], Content(u, L');
    forall p | 0 <= p < size' ensures c'[p] == c[p] {
      var i := p / FFS_BLOCK;
      assert 0 <= i < n';
      assert BlockBytes(u, L', i) == BlockBytes(t, L, i);
    }
  }

  /* ---- shrinking as a whole ---- */

  /**
    The new end is not at a block boundary, or the handle already stands there with the
    block before it cached; and an extension block stays cached only if one is kept.
  */
  predicate KeepsHandle(h: Handle, size': nat) {
    && (size' % FFS_BLOCK != 0 || (size' > 0 && h.pos == size' && h.posInDataBlk == FFS_BLOCK))
    && (Size2Extblocks(size', FFS_BLOCK) > 0 || h.ext.None?)
  }

  lemma ShrinkIsCut(s: FS, L: Layout, size': nat)
    requires Inv(s, L) && ListsRemoval(s.v, s.h.hdr, L, size') && size' < s.h.hdr.byteSize
    ensures var t := Seek(s, size').s;
            && Size2Datablocks(size', FFS_BLOCK) <= |L.data|
            && Shrink(s, size') == Outcome(Cut(t, L, size'), RcOk)
            && Sought(s, Seek(s, size'), L, size')
  {
    SeekReaches(s, L, size');
    hide Seek, BlocksToRemove, RemovalOrder, CutHandle, Inv, ListsRemoval, Size2Datablocks;
  }

  /** The block that is cached when the cut is made. */
  lemma SeekBlock(s: FS, L: Layout, size': nat)
    requires Inv(s, L) && size' < s.h.hdr.byteSize
    ensures var t := Seek(s, size').s;
            && Inv(t, L) && t.h.pos == size' && |L.data| > 0
            && t.h.pos == FFS_BLOCK * (t.h.nDataBlock - 1) + t.h.posInDataBlk && t.h.posInDataBlk <= FFS_BLOCK
            && (s.h.pos == size' && s.h.curDataPtr != 0 ==> t == s)
            && (!(s.h.pos == size' && s.h.curDataPtr != 0) ==> t.h.posInDataBlk < FFS_BLOCK)
            && s.h.curDataPtr != 0
  {
    SeekReaches(s, L, size');
    assert L.data[s.h.nDataBlock - 1] in L.own;
    if !(s.h.pos == size' && s.h.curDataPtr != 0) {
      SeekLandsInside(s, L, size');
    }
    var t := Seek(s, size').s;
    assert s.h.pos == size' && s.h.curDataPtr != 0 ==> t == s;
    hide Seek;
  }

  lemma SeekCachedExt(s: FS, L: Layout, size': nat)
    requires Inv(s, L) && size' < s.h.hdr.byteSize
    requires size' / FFS_BLOCK < MAX_DATABLK || (s.h.pos == size' && s.h.curDataPtr != 0)
    ensures var t := Seek(s, size').s;
            && (t.h.ext.Some? <==> s.h.ext.Some?)
            && (s.h.ext.Some? ==> t.h.ext.value.headerKey == s.h.ext.value.headerKey)
  {
    if size' / FFS_BLOCK < MAX_DATABLK {
      SeekKeepsExt(s, L, size');
    }
  }

  lemma ReadyIfKept(s: FS, L: Layout, size': nat)
    requires Inv(s, L) && ListsRemoval(s.v, s.h.hdr, L, size') && s.h.modeWrite && size' < s.h.hdr.byteSize
    requires KeepsHandle(s.h, size')
    ensures ReadyToCut(Seek(s, size').s, L, size')
  {
    ShrinkIsCut(s, L, size');
    SeekBlock(s, L, size');
    NewSizeOK(size');
    var t := Seek(s, size').s;
    var n' := Size2Datablocks(size', FFS_BLOCK);
    assert t.h.modeWrite && t.h.hdr == s.h.hdr;
    if Datablocks2Extblocks(n') == 0 {
      SeekCachedExt(s, L, size');
    }
  }

  /** The cut frees exactly the sectors it takes from the file, as many as the real sizes differ by. */
  lemma CutFrees(t: FS, L: Layout, size': nat)
    requires ReadyToCut(t, L, size')
    ensures var n' := Size2Datablocks(size', FFS_BLOCK);
            && n' <= |L.data| && Datablocks2Extblocks(n') <= |L.exts|
            && var v, L' := Cut(t, L, size').v, CutLayout(L, n');
               && L'.own.Keys <= L.own.Keys
               && v.free == t.v.free + (L.own.Keys - L'.own.Keys)
               && SameOutside(t.v, v, L.own.Keys)
               && |v.free| + RealSize(size', FFS_BLOCK).total == |t.v.free| + RealSize(t.h.hdr.byteSize, FFS_BLOCK).total
  {
    hide ReadyToCut, Inv, ListsRemoval, RealSize, Size2Datablocks, Datablocks2Extblocks, CutHandle, RemovalOrder,
         OwnOK, HdrOK, ExtOK, Stored, CutLayout;
    RealSizeAgrees(size', FFS_BLOCK);
    RealSizeAgrees(t.h.hdr.byteSize, FFS_BLOCK);
    CutReady(t, L, size');
    CutFacts(t, L, size');
    CutVol(t, L, size');
    RemovedSectors(L, Size2Datablocks(size', FFS_BLOCK));
  }

  /**
    Shrinking a file, when the walk finds the blocks beyond the new size, leaves the first
    bytes of it, and frees as many sectors as the real sizes differ by.
  */
  lemma ShrinkRefines(s: FS, L: Layout, size': nat) returns (L': Layout)
    requires Inv(s, L) && ListsRemoval(s.v, s.h.hdr, L, size') && s.h.modeWrite && size' < s.h.hdr.byteSize
    requires KeepsHandle(s.h, size')
    ensures var o := Shrink(s, size');
            && o.rc == RcOk
            && Inv(o.s, L') && o.s.h.pos == size'
            && size' <= |Content(s, L)|
            && Content(o.s, L') == Content(s, L)[..size']
            && o.s.h.modeRead == s.h.modeRead && o.s.h.modeWrite == s.h.modeWrite
            && L'.header == L.header && L'.data <= L.data && L'.exts <= L.exts && L'.own.Keys <= L.own.Keys
            && SameOutside(s.v, o.s.v, L.own.Keys)
            && o.s.v.free == s.v.free + (L.own.Keys - L'.own.Keys)
            && |o.s.v.free| + RealSize(size', FFS_BLOCK).total == |s.v.free| + RealSize(s.h.hdr.byteSize, FFS_BLOCK).total
  {
    hide ReadyToCut, Inv, ListsRemoval, Seek, Shrink, Content, RealSize, Size2Datablocks, Datablocks2Extblocks, Cut, KeepsHandle;
    ReadyIfKept(s, L, size');
    ShrinkIsCut(s, L, size');
    var t := Seek(s, size').s;
    CutKeepsModes(t, L, size');
    CutFrees(t, L, size');
    CutIsOpen(t, L, size');
    CutContent(t, L, size');
    L' := CutLayout(L, Size2Datablocks(size', FFS_BLOCK));
    ContentLength(s, L);
  }

  lemma CutKeepsModes(t: FS, L: Layout, size': nat)
    requires Size2Datablocks(size', FFS_BLOCK) <= |L.data|
    ensures var u := Cut(t, L, size');
            u.h.modeRead == t.h.modeRead && u.h.modeWrite == t.h.modeWrite && u.h.pos == t.h.pos
  {
    hide CutTable, RemovalOrder;
  }

  /* ---- and only then ---- */

  lemma CachedNotFree(u: FS, L: Layout)
    requires Inv(u, L)
    ensures u.h.curDataPtr != 0 ==> u.h.curDataPtr !in u.v.free
    ensures u.h.ext.Some? ==> u.h.ext.value.headerKey !in u.v.free
  {
    if |L.data| > 0 {
      assert u.h.curDataPtr in L.own;
    }
  }

  /** No layout fits a handle one of whose cached blocks is on a free sector. */
  lemma CachedFree(u: FS)
    requires (u.h.curDataPtr != 0 && u.h.curDataPtr in u.v.free)
          || (u.h.ext.Some? && u.h.ext.value.headerKey in u.v.free)
    ensures !exists L' :: Inv(u, L')
  {
    forall L' | Inv(u, L') ensures false {
      CachedNotFree(u, L');
    }
  }

  lemma CutHandleKeeps(h: Handle, size': nat)
    ensures CutHandle(h, size').curDataPtr == h.curDataPtr
    ensures Size2Extblocks(size', FFS_BLOCK) == 0 ==> CutHandle(h, size').ext == h.ext
  {
    hide CutTable;
  }

  lemma WholeBlocks(size': nat)
    requires size' % FFS_BLOCK == 0
    ensures Size2Datablocks(size', FFS_BLOCK) == size' / FFS_BLOCK
  {
  }

  /** At a block boundary the seek loads the block behind the new end, which is freed. */
  lemma BoundaryLoadsFreed(s: FS, L: Layout, size': nat)
    requires Inv(s, L) && ListsRemoval(s.v, s.h.hdr, L, size') && size' < s.h.hdr.byteSize && size' % FFS_BLOCK == 0
    requires !(size' > 0 && s.h.pos == size' && s.h.posInDataBlk == FFS_BLOCK)
    ensures var u := Shrink(s, size').s;
            u.h.curDataPtr != 0 && u.h.curDataPtr in u.v.free
  {
    hide Seek, Shrink, Inv, ListsRemoval, Content, RemovalOrder, CutHandle, OwnOK, Datablocks2Extblocks, Size2Datablocks;
    ShrinkIsCut(s, L, size');
    SeekBlock(s, L, size');
    WholeBlocks(size');
    var t := Seek(s, size').s;
    var n' := Size2Datablocks(size', FFS_BLOCK);
    LoadedIsData(t, L, n');
    CutHandleKeeps(t.h, size');
    RemovedSectors(L, n');
    assert L.data[n'] !in CutLayout(L, n').own.Keys;
  }

  /** At the start of a block, the block loaded is the one of that number. */
  lemma LoadedIsData(t: FS, L: Layout, n': nat)
    requires Inv(t, L) && |L.data| > 0 && t.h.pos == FFS_BLOCK * n' && (t.h.posInDataBlk < FFS_BLOCK || n' == 0)
    ensures OwnOK(L) && |L.exts| == Datablocks2Extblocks(|L.data|)
    ensures n' < |L.data| && t.h.curDataPtr == L.data[n'] && t.h.curDataPtr >= 2
    ensures L.data[n'] in L.own && L.own[L.data[n']] == IsData(n')
  {
    assert t.h.nDataBlock - 1 == n';
  }

  /** Cut down to the blocks of its header, the file gives up the extension block that stays cached. */
  lemma CachedExtFreed(s: FS, L: Layout, size': nat)
    requires Inv(s, L) && ListsRemoval(s.v, s.h.hdr, L, size') && size' < s.h.hdr.byteSize
    requires size' / FFS_BLOCK < MAX_DATABLK || (s.h.pos == size' && s.h.curDataPtr != 0)
    requires Size2Extblocks(size', FFS_BLOCK) == 0 && s.h.ext.Some?
    ensures var u := Shrink(s, size').s;
            u.h.ext.Some? && u.h.ext.value.headerKey in u.v.free
  {
    ShrinkIsCut(s, L, size');
    SeekCachedExt(s, L, size');
    var t := Seek(s, size').s;
    var n' := Size2Datablocks(size', FFS_BLOCK);
    var key := s.h.ext.value.headerKey;
    assert OwnOK(L) && |L.exts| == Datablocks2Extblocks(|L.data|);
    assert key in L.own && L.own[key].IsExt?;
    CutHandleKeeps(t.h, size');
    RemovedSectors(L, n');
    hide Seek, Shrink, Inv, ListsRemoval, RemovalOrder, CutHandle, Datablocks2Extblocks, Size2Datablocks;
    assert key !in CutLayout(L, n').own.Keys;
  }

  /**
    Exactly when a file can be shrunk with its handle still whole, when the walk finds the
    blocks beyond the new size: the handle otherwise keeps a cached block that the bitmap calls free, and the next
    flush would write over whatever has taken that sector since.
  */
  lemma ShrinkExact(s: FS, L: Layout, size': nat)
    requires Inv(s, L) && ListsRemoval(s.v, s.h.hdr, L, size') && s.h.modeWrite && size' < s.h.hdr.byteSize
    ensures (exists L' :: Inv(Shrink(s, size').s, L')) <==> KeepsHandle(s.h, size')
  {
    if KeepsHandle(s.h, size') {
      var L' := ShrinkRefines(s, L, size');
    } else {
      var atEnd := size' > 0 && s.h.pos == size' && s.h.posInDataBlk == FFS_BLOCK;
      if size' % FFS_BLOCK == 0 && !atEnd {
        BoundaryLoadsFreed(s, L, size');
        CachedFree(Shrink(s, size').s);
      } else {
        EndsInHeader(s, L, size');
        CachedExtFreed(s, L, size');
        CachedFree(Shrink(s, size').s);
      }
    }
  }

  lemma EndsInHeader(s: FS, L: Layout, size': nat)
    requires Inv(s, L) && size' < s.h.hdr.byteSize && Size2Extblocks(size', FFS_BLOCK) == 0
    requires size' % FFS_BLOCK != 0 || (s.h.pos == size' && s.h.posInDataBlk == FFS_BLOCK)
    ensures size' / FFS_BLOCK < MAX_DATABLK || (s.h.pos == size' && s.h.curDataPtr != 0)
  {
    assert L.data[s.h.nDataBlock - 1] in L.own;
  }
}
