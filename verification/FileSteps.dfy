/**
  Every step of the open-file engine keeps the invariant and changes the content
  as intended.
*/
module FileSteps {
  import opened FileUtil
  import opened Blocks
  import opened FileSpec
  import opened FileInv

  /* ---- flush ---- */

  lemma StoreExtStep(s: FS, L: Layout)
    requires Inv(s, L)
    ensures var o := StoreExt(s);
            && o.rc == RcOk
            && CachedExtOK(o.s.h, L)
            && o.s.h == s.h.(ext := o.s.h.ext)
            && (o.s.h.ext.Some? <==> s.h.ext.Some?)
            && (s.h.ext.Some? ==> o.s.h.ext.value.headerKey == s.h.ext.value.headerKey)
            && o.s.v.free == s.v.free
            && SameOutside(s.v, o.s.v, if s.h.ext.Some? then {s.h.ext.value.headerKey} else {})
            && (s.h.ext.Some? ==> o.s.v.disk[s.h.ext.value.headerKey] == Meta(o.s.h.ext.value))
            && (forall j :: 0 <= j < |L.exts| ==> ExtOnDisk(o.s.v, L, j))
  {
    if s.h.ext.Some? {
      var x := s.h.ext.value;
      var y := SealExt(x);
      assert forall k :: 0 <= k < 72 ==> Slot(y, k) == Slot(x, k);
      var v' := StoreExt(s).s.v;
      forall j | 0 <= j < |L.exts| ensures ExtOnDisk(v', L, j) {
        if L.exts[j] == x.headerKey {
          assert L.own[x.headerKey] == IsExt(j);
        } else {
          assert ExtOnDisk(s.v, L, j);
        }
      }
    }
  }

  /** Then the cached data block: all data blocks are on the disk. */
  lemma StoreDataStep(s: FS, L: Layout)
    requires Inv(s, L)
    ensures var s1 := StoreExt(s).s;
            var o := StoreCurrentData(s1);
            && o.rc == RcOk
            && o.s.h == s1.h
            && o.s.v.free == s.v.free
            && SameOutside(s1.v, o.s.v, if |L.data| > 0 then {s.h.curDataPtr} else {})
            && (|L.data| > 0 ==> o.s.v.disk[s.h.curDataPtr] == Data(s.h.data))
            && (forall i :: 0 <= i < |L.data| ==> DataOnDisk(o.s.v, L, i))
            && (forall i :: 0 <= i < |L.data| ==> DiskBlock(o.s.v, L, i) == BlockBytes(s, L, i))
  {
    StoreExtStep(s, L);
    var s1 := StoreExt(s).s;
    var v' := StoreCurrentData(s1).s.v;
    forall i | 0 <= i < |L.data|
      ensures DataOnDisk(v', L, i) && DiskBlock(v', L, i) == BlockBytes(s, L, i)
    {
      assert L.own[L.data[i]] == IsData(i);
      if i != s.h.nDataBlock - 1 {
        assert DataOnDisk(s.v, L, i);
        assert L.data[i] != s.h.curDataPtr;
        assert s1.v.disk[L.data[i]] == s.v.disk[L.data[i]];
      }
    }
  }

  /** A flush leaves the whole file on the disk and changes no byte of it. */
  lemma FlushStep(s: FS, L: Layout)
    requires Inv(s, L) && s.h.modeWrite
    ensures var o := Flush(s);
            && o.rc == RcOk
            && AtRest(o.s, L)
            && o.s.v.free == s.v.free
            && SameOutside(s.v, o.s.v, L.own.Keys)
            && o.s.h == s.h.(ext := o.s.h.ext)
            && (o.s.h.ext.Some? <==> s.h.ext.Some?)
            && (s.h.ext.Some? ==> o.s.h.ext.value.headerKey == s.h.ext.value.headerKey)
            && (|L.data| > 0 ==> o.s.v.disk[s.h.curDataPtr] == Data(s.h.data))
            && (forall i :: 0 <= i < |L.data| ==> DiskBlock(o.s.v, L, i) == BlockBytes(s, L, i))
  {
    StoreExtStep(s, L);
    StoreDataStep(s, L);
    var s1 := StoreExt(s).s;
    var s2 := StoreCurrentData(s1).s;
    var s3 := StoreHdr(s2).s;
    assert Flush(s) == StoreHdr(s2);
    StoredAfterHdr(s1, s2, L);
  }

  /** Storing the header over an otherwise stored file. */
  lemma StoredAfterHdr(s1: FS, s2: FS, L: Layout)
    requires Base(s2.v, s2.h.hdr, L) && CachedExtOK(s2.h, L) && s1.h == s2.h
    requires forall j :: 0 <= j < |L.exts| ==> ExtOnDisk(s1.v, L, j)
    requires |L.data| > 0 ==> s2.h.curDataPtr in L.data
    requires SameOutside(s1.v, s2.v, if |L.data| > 0 then {s2.h.curDataPtr} else {})
    requires forall i :: 0 <= i < |L.data| ==> DataOnDisk(s2.v, L, i)
    requires s2.h.ext.Some? ==> s1.v.disk[s2.h.ext.value.headerKey] == Meta(s2.h.ext.value)
    ensures var o := StoreHdr(s2);
            && o.rc == RcOk && AtRest(o.s, L) && o.s.h == s2.h
            && SameOutside(s2.v, o.s.v, {L.header})
            && o.s.v.free == s2.v.free
            && (forall i :: 0 <= i < |L.data| ==> DiskBlock(o.s.v, L, i) == DiskBlock(s2.v, L, i))
  {
    var v' := StoreHdr(s2).s.v;
    assert s2.h.hdr == SealHdr(s2.h.hdr);
    forall j | 0 <= j < |L.exts| ensures ExtOnDisk(v', L, j) {
      assert ExtOnDisk(s1.v, L, j);
      assert L.own[L.exts[j]] == IsExt(j);
      assert v'.disk[L.exts[j]] == s1.v.disk[L.exts[j]];
    }
    forall i | 0 <= i < |L.data| ensures DataOnDisk(v', L, i) && DiskBlock(v', L, i) == DiskBlock(s2.v, L, i) {
      assert DataOnDisk(s2.v, L, i);
      assert L.own[L.data[i]] == IsData(i);
    }
  }

  lemma RestIsOpen(s: FS, t: FS, L: Layout)
    requires CursorOK(s.h, L) && AtRest(t, L)
    requires t.h == s.h.(ext := t.h.ext, changed := t.h.changed) && (t.h.changed ==> s.h.changed)
    requires t.h.ext.Some? <==> s.h.ext.Some?
    requires s.h.ext.Some? ==> t.h.ext.value.headerKey == s.h.ext.value.headerKey
    requires |L.data| > 0 ==> t.v.disk[s.h.curDataPtr] == Data(s.h.data)
    ensures Inv(t, L)
  {
  }

  lemma FlushKeepsInv(s: FS, L: Layout)
    requires Inv(s, L) && s.h.modeWrite
    ensures Inv(Flush(s).s, L) && Inv(Clean(Flush(s).s), L)
    ensures Content(Flush(s).s, L) == Content(s, L) && Content(Clean(Flush(s).s), L) == Content(s, L)
  {
    FlushStep(s, L);
    var t := Flush(s).s;
    assert CursorOK(s.h, L) && SizeOK(s.h.hdr.byteSize, |L.data|);
    assert AtRest(Clean(t), L);
    hide Flush, Inv, AtRest, Ahead, CursorOK;
    RestIsOpen(s, t, L);
    RestIsOpen(s, Clean(t), L);
    SameBlocksSameContent(s, L, t, L);
    SameBlocksSameContent(s, L, Clean(t), L);
  }

  lemma FlushIfChangedStep(s: FS, L: Layout)
    requires Inv(s, L)
    ensures var t := FlushIfChanged(s);
            && Inv(t, L) && !t.h.changed && AtRest(t, L)
            && Content(t, L) == Content(s, L)
            && t.v.free == s.v.free
            && SameOutside(s.v, t.v, L.own.Keys)
            && t.h == s.h.(ext := t.h.ext, changed := false)
            && (s.h.ext.Some? ==> t.h.ext.Some?)
            && (t.h.ext.Some? ==> s.h.ext.Some? && t.h.ext.value.headerKey == s.h.ext.value.headerKey)
  {
    if s.h.modeWrite && s.h.changed {
      FlushStep(s, L);
      FlushKeepsInv(s, L);
    }
  }

  /* ---- the next data block ---- */

  lemma SlotOfExt(n: nat, j: nat, k: nat)
    requires n >= MAX_DATABLK && j == n / MAX_DATABLK - 1 && k == n % MAX_DATABLK
    ensures MAX_DATABLK * (j + 1) + k == n
  {
  }

  lemma LoadBlockStep(s: FS, L: Layout, n: nat)
    requires n < |L.data| && DataOnDisk(s.v, L, n) && L.data[n] >= 2
    ensures LoadBlock(s, L.data[n]) ==
            Outcome(FS(s.v, s.h.(data := DiskBlock(s.v, L, n), curDataPtr := L.data[n], nDataBlock := s.h.nDataBlock + 1)), RcOk)
    ensures s.v.disk[L.data[n]] == Data(DiskBlock(s.v, L, n))
  {
  }

  /** Fetching extension block `j` from the disk and going on with its first slot. */
  lemma LoadExtStep(s: FS, L: Layout, n: nat, j: nat)
    requires AtRest(s, L) && n < |L.data| && n == MAX_DATABLK * (j + 1)
    ensures var o := LoadExt(s, PtrOrZero(L.exts, j));
            && o.rc == RcOk && o.s.v == s.v
            && j < |L.exts|
            && o.s.h == s.h.(ext := Some(s.v.disk[L.exts[j]].node), posInExtBlk := 1, nDataBlock := s.h.nDataBlock + 1,
                             data := DiskBlock(s.v, L, n), curDataPtr := L.data[n])
            && AtRest(o.s, L)
            && o.s.h.ext.value.headerKey == L.exts[j]
  {
    assert DataOnDisk(s.v, L, n) && L.data[n] in L.own;
    assert ExtOnDisk(s.v, L, j);
    assert L.own[L.exts[j]] == IsExt(j);
    var x := s.v.disk[L.exts[j]].node;
    assert Slot(x, 0) == L.data[n];
    LoadBlockStep(FS(s.v, s.h.(ext := Some(x), posInExtBlk := 1)), L, n);
  }

  /** Going on with slot `k` of the cached extension block `j`. */
  lemma NextFromExtStep(s: FS, L: Layout, n: nat, j: nat, k: nat)
    requires AtRest(s, L) && n < |L.data| && n == MAX_DATABLK * (j + 1) + k && k < MAX_DATABLK
    requires s.h.ext.Some? && s.h.ext.value.headerKey == PtrOrZero(L.exts, j) && s.h.posInExtBlk == k
    ensures NextFromExt(s) ==
            Outcome(FS(s.v, s.h.(posInExtBlk := k + 1, nDataBlock := s.h.nDataBlock + 1,
                                 data := DiskBlock(s.v, L, n), curDataPtr := L.data[n])), RcOk)
  {
    assert DataOnDisk(s.v, L, n) && L.data[n] in L.own;
    assert L.own[L.exts[j]] == IsExt(j);
    assert Slot(s.h.ext.value, k) == L.data[n];
    LoadBlockStep(FS(s.v, s.h.(posInExtBlk := k + 1)), L, n);
  }

  /** What moving on to data block `nDataBlock` means. */
  ghost predicate MovedOn(s: FS, o: Outcome, L: Layout)
    requires s.h.nDataBlock < |L.data|
  {
    && o.rc == RcOk
    && AtRest(o.s, L)
    && o.s.v == s.v
    && ExtCursorOK(o.s.h, L)
    && o.s.h == s.h.(ext := o.s.h.ext, posInExtBlk := o.s.h.posInExtBlk, nDataBlock := s.h.nDataBlock + 1,
                     data := DiskBlock(s.v, L, s.h.nDataBlock), curDataPtr := L.data[s.h.nDataBlock])
    && s.v.disk[L.data[s.h.nDataBlock]] == Data(o.s.h.data)
  }

  lemma ReadNextFromHdr(s: FS, L: Layout)
    requires AtRest(s, L) && s.h.nDataBlock < |L.data| && s.h.nDataBlock < MAX_DATABLK
    ensures MovedOn(s, ReadNextBlock(s), L)
  {
    var n := s.h.nDataBlock;
    assert DataOnDisk(s.v, L, n) && L.data[n] in L.own;
    assert Slot(s.h.hdr, n) == L.data[n];
    LoadBlockStep(s, L, n);
    assert ReadNextBlock(s) == LoadBlock(s, L.data[n]);
  }

  lemma ReadNextFromNewExt(s: FS, L: Layout)
    requires AtRest(s, L) && s.h.nDataBlock < |L.data| && ExtCursorOK(s.h, L)
    requires s.h.nDataBlock >= MAX_DATABLK && s.h.nDataBlock % MAX_DATABLK == 0
    ensures MovedOn(s, ReadNextBlock(s), L)
  {
    hide LoadExt;
    var n := s.h.nDataBlock;
    var j := n / MAX_DATABLK - 1;
    LoadExtStep(s, L, n, j);
    NextExtKey(s, L);
    assert DataOnDisk(s.v, L, n);
  }

  /** At the end of a table the next extension block is read. */
  lemma NextExtKey(s: FS, L: Layout)
    requires AtRest(s, L) && s.h.nDataBlock < |L.data| && ExtCursorOK(s.h, L)
    requires s.h.nDataBlock >= MAX_DATABLK && s.h.nDataBlock % MAX_DATABLK == 0
    ensures ReadNextBlock(s) == LoadExt(s, PtrOrZero(L.exts, s.h.nDataBlock / MAX_DATABLK - 1))
  {
    hide LoadExt;
    var n := s.h.nDataBlock;
    var j := n / MAX_DATABLK - 1;
    if n > MAX_DATABLK {
      assert L.own[L.exts[j - 1]] == IsExt(j - 1);
      assert ExtOK(s.h.ext.value, L, j - 1);
    }
  }

  lemma ReadNextFromSameExt(s: FS, L: Layout)
    requires AtRest(s, L) && s.h.nDataBlock < |L.data| && ExtCursorOK(s.h, L)
    requires s.h.nDataBlock >= MAX_DATABLK && s.h.nDataBlock % MAX_DATABLK != 0
    ensures MovedOn(s, ReadNextBlock(s), L)
  {
    var n := s.h.nDataBlock;
    var j, k := n / MAX_DATABLK - 1, n % MAX_DATABLK;
    SlotOfExt(n, j, k);
    assert (n - 1) / MAX_DATABLK == n / MAX_DATABLK && (n - 1) % MAX_DATABLK + 1 == k;
    NextFromExtStep(s, L, n, j, k);
    assert ReadNextBlock(s) == NextFromExt(s);
    assert DataOnDisk(s.v, L, n);
  }

  /** Reading the next data block of a file at rest finds it, through the right extension block. */
  lemma ReadNextStep(s: FS, L: Layout)
    requires AtRest(s, L) && s.h.nDataBlock < |L.data| && ExtCursorOK(s.h, L)
    ensures MovedOn(s, ReadNextBlock(s), L)
  {
    if s.h.nDataBlock < MAX_DATABLK {
      ReadNextFromHdr(s, L);
    } else if s.h.nDataBlock % MAX_DATABLK == 0 {
      ReadNextFromNewExt(s, L);
    } else {
      ReadNextFromSameExt(s, L);
    }
  }
}
